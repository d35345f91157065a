/** backend/handlers/topic_handler.go: the topics of one subject, creating a
    topic, the dynamic partial update, the two toggles and deleting. */
module TopicHandler {
  import opened Wrappers
  import opened Seqs
  import opened Text
  import opened Models
  import opened Database
  import opened Aggregate
  import opened QueryBuilder

  // ---------------------------------------------------------------------------
  // GetTopicsBySubject

  /** `WHERE subject_id = $1 ORDER BY id`; an id outside INTEGER is a store error. */
  function TopicsBySubject(t: Tables, param: string): (r: Outcome<seq<Topic>>)
    ensures Atoi(param).None? ==> r == Err(BadRequest(InvalidSubjectId))
    ensures Atoi(param).Some? ==> (r.Ok? <==> IsInteger(Atoi(param).value))
    ensures r.Err? ==> r == Err(BadRequest(InvalidSubjectId)) || r == Err(Internal)
    ensures r.Ok? ==> forall x :: x in r.value <==> x in t.topics && x.subjectId == Atoi(param).value
  {
    match Atoi(param)
    case None => Err(BadRequest(InvalidSubjectId))
    case Some(id) => if !IsInteger(id) then Err(Internal) else Ok(Filter(t.topics, TopicOf(id)))
  }

  /** The topics come in ascending id order, each once; a subject that does not
      exist simply has none. */
  lemma TopicsBySubjectOrder(t: Tables, param: string)
    requires Consistent(t) && TopicsBySubject(t, param).Ok?
    ensures Ascending(Keys(TopicsBySubject(t, param).value, TopicKey))
    ensures Atoi(param).value !in t.SubjectIds() ==> TopicsBySubject(t, param).value == []
    ensures |TopicsBySubject(t, param).value| == SubjectCounts(t.topics, Atoi(param).value).total
  {
    var id := Atoi(param).value;
    FilterAscending(t.topics, TopicOf(id), TopicKey);
    if id !in t.SubjectIds() {
      FilterNone(t.topics, TopicOf(id));
    }
  }

  /** The handler's row loop: the matching rows, appended in table order. */
  method GetTopicsBySubject(db: Store, param: string) returns (r: Outcome<seq<Topic>>)
    ensures r == TopicsBySubject(db.State(), param)
  {
    var subjectId := Atoi(param);
    if subjectId.None? {
      return Err(BadRequest(InvalidSubjectId));
    }
    if !IsInteger(subjectId.value) {
      return Err(Internal);
    }
    var topics := SelectTopics(db.topics, subjectId.value);
    r := Ok(topics);
  }

  /** The row loop: each topic of the subject is appended in table order. */
  method SelectTopics(rows: seq<Topic>, subjectId: int) returns (topics: seq<Topic>)
    ensures topics == Filter(rows, TopicOf(subjectId))
  {
    topics := [];
    var i := 0;
    while i < |rows|
      invariant 0 <= i <= |rows|
      invariant topics == Filter(rows[..i], TopicOf(subjectId))
    {
      FilterSnoc(rows[..i], rows[i], TopicOf(subjectId));
      assert rows[..i + 1] == rows[..i] + [rows[i]];
      if rows[i].subjectId == subjectId {
        topics := topics + [rows[i]];
      }
      i := i + 1;
    }
    assert rows[..i] == rows;
  }

  // ---------------------------------------------------------------------------
  // CreateTopic

  /** CreateTopic: subject id and name are both required (a zero id counts as
      missing); the insert fails when the subject does not exist. */
  function Create(t: Tables, body: Body<CreateTopicInput>): (Tables, Outcome<int>) {
    if body.Malformed? || !RequiredId(body.value.subjectId) || !Required(body.value.name) then (t, Err(InvalidBody))
    else if !IsInteger(body.value.subjectId) then (t, Err(Internal))
    else match InsertTopic(t, body.value.subjectId, body.value.name)
      case None => (t, Err(Internal))
      case Some(u) => (u, Ok(t.nextTopicId))
  }

  /** A created topic is appended to its subject, neither completed nor weak:
      the subject's total goes up by one and its other counts stay. */
  lemma CreateEffect(t: Tables, body: Body<CreateTopicInput>)
    requires Consistent(t)
    ensures var (u, r) := Create(t, body);
      && Consistent(u)
      && (r.Err? ==> u == t)
      && (body.Json? && body.value.subjectId != 0 && body.value.name != "" ==>
            (r.Ok? <==> IsInteger(body.value.subjectId) && body.value.subjectId in t.SubjectIds()
                        && Varchar(body.value.name, TopicNameLength).Some?))
      && (r.Ok? ==>
            && r.value == t.nextTopicId && r.value !in t.TopicIds()
            && u.subjects == t.subjects && u.notes == t.notes && u.plans == t.plans
            && SubjectCounts(u.topics, body.value.subjectId)
               == Add(SubjectCounts(t.topics, body.value.subjectId), Counts(1, 0, 0)))
  {
    var (u, r) := Create(t, body);
    if r.Ok? {
      var input := body.value;
      InsertTopicEffect(t, input.subjectId, input.name);
      var x := u.topics[|t.topics|];
      assert u.topics == t.topics + [x];
      SubjectCountsSnoc(t.topics, x, input.subjectId);
    } else if body.Json? && RequiredId(body.value.subjectId) && Required(body.value.name) && IsInteger(body.value.subjectId) {
      InsertTopicEffect(t, body.value.subjectId, body.value.name);
    }
  }

  method CreateTopic(db: Store, body: Body<CreateTopicInput>) returns (r: Outcome<int>)
    requires db.Valid()
    modifies db
    ensures db.Valid()
    ensures (db.State(), r) == Create(old(db.State()), body)
  {
    if body.Malformed? || !RequiredId(body.value.subjectId) || !Required(body.value.name) {
      return Err(InvalidBody);
    }
    var input := body.value;
    if !IsInteger(input.subjectId) {
      return Err(Internal);
    }
    var inserted := InsertTopic(db.State(), input.subjectId, input.name);
    if inserted.None? {
      return Err(Internal);
    }
    InsertTopicEffect(db.State(), input.subjectId, input.name);
    r := Ok(db.nextTopicId);
    db.Commit(inserted.value);
  }

  // ---------------------------------------------------------------------------
  // UpdateTopic: `UPDATE topics SET <supplied columns> WHERE id = $n`

  /** The columns the handler's three `if`s assign, in order: a non-empty name,
      then each flag that is present. */
  function Columns(input: UpdateTopicInput): (c: seq<string>)
    ensures |c| <= 3
    ensures c == [] <==> input.name == "" && input.isCompleted.None? && input.isWeak.None?
  {
    (if input.name != "" then ["name"] else [])
    + (if input.isCompleted.Some? then ["is_completed"] else [])
    + (if input.isWeak.Some? then ["is_weak"] else [])
  }

  /** The values of those columns, in the same order. */
  function Values(input: UpdateTopicInput): (v: seq<Arg>)
    ensures |v| == |Columns(input)|
  {
    (if input.name != "" then [TextArg(input.name)] else [])
    + (if input.isCompleted.Some? then [BoolArg(input.isCompleted.value)] else [])
    + (if input.isWeak.Some? then [BoolArg(input.isWeak.value)] else [])
  }

  /** The statement the handler sends for `input` and topic `id`. */
  function UpdateStatement(input: UpdateTopicInput, id: int): QueryBuilder.Statement {
    QueryBuilder.Statement(UpdateText("topics", Columns(input)), Columns(input), Values(input) + [IdArg(id)])
  }

  lemma TopicsPrefix()
    ensures "UPDATE topics SET " == "UPDATE " + "topics" + " SET "
  {
  }

  /** `if input.Name != ""`: the name assignment. */
  method AddName(input: UpdateTopicInput, head: string, query: string, columns: seq<string>, args: seq<Arg>, argIndex: int)
    returns (query': string, columns': seq<string>, args': seq<Arg>, argIndex': int)
    requires query == head + Appended(columns) && argIndex == |columns| + 1
    ensures query' == head + Appended(columns') && argIndex' == |columns'| + 1
    ensures columns' == columns + (if input.name != "" then ["name"] else [])
    ensures args' == args + (if input.name != "" then [TextArg(input.name)] else [])
  {
    query', columns', args', argIndex' := query, columns, args, argIndex;
    if input.name != "" {
      query', columns', args', argIndex' := AddAssignment(head, query, columns, args, argIndex, "name", TextArg(input.name));
    }
  }

  /** `if input.IsCompleted != nil`: the completion flag. */
  method AddCompleted(input: UpdateTopicInput, head: string, query: string, columns: seq<string>, args: seq<Arg>, argIndex: int)
    returns (query': string, columns': seq<string>, args': seq<Arg>, argIndex': int)
    requires query == head + Appended(columns) && argIndex == |columns| + 1
    ensures query' == head + Appended(columns') && argIndex' == |columns'| + 1
    ensures columns' == columns + (if input.isCompleted.Some? then ["is_completed"] else [])
    ensures args' == args + (if input.isCompleted.Some? then [BoolArg(input.isCompleted.value)] else [])
  {
    query', columns', args', argIndex' := query, columns, args, argIndex;
    if input.isCompleted.Some? {
      query', columns', args', argIndex' := AddAssignment(head, query, columns, args, argIndex, "is_completed", BoolArg(input.isCompleted.value));
    }
  }

  /** `if input.IsWeak != nil`: the weak-topic flag. */
  method AddWeak(input: UpdateTopicInput, head: string, query: string, columns: seq<string>, args: seq<Arg>, argIndex: int)
    returns (query': string, columns': seq<string>, args': seq<Arg>, argIndex': int)
    requires query == head + Appended(columns) && argIndex == |columns| + 1
    ensures query' == head + Appended(columns') && argIndex' == |columns'| + 1
    ensures columns' == columns + (if input.isWeak.Some? then ["is_weak"] else [])
    ensures args' == args + (if input.isWeak.Some? then [BoolArg(input.isWeak.value)] else [])
  {
    query', columns', args', argIndex' := query, columns, args, argIndex;
    if input.isWeak.Some? {
      query', columns', args', argIndex' := AddAssignment(head, query, columns, args, argIndex, "is_weak", BoolArg(input.isWeak.value));
    }
  }

  /** The SET-list half of UpdateTopic's query building: each supplied field
      appends `column = $k, ` to the text that starts as `head`, and its value
      to the arguments. */
  method AddAssignments(input: UpdateTopicInput, head: string)
    returns (query: string, columns: seq<string>, args: seq<Arg>, argIndex: int)
    ensures query == head + Appended(columns) && argIndex == |columns| + 1
    ensures columns == Columns(input) && args == Values(input)
  {
    query, columns, args, argIndex := head, [], [], 1;
    query, columns, args, argIndex := AddName(input, head, query, columns, args, argIndex);
    query, columns, args, argIndex := AddCompleted(input, head, query, columns, args, argIndex);
    query, columns, args, argIndex := AddWeak(input, head, query, columns, args, argIndex);
  }

  /** The query-building half of UpdateTopic: the SET list, then the last two
      characters cut and the id as the final placeholder. */
  method BuildUpdate(input: UpdateTopicInput, id: int) returns (q: QueryBuilder.Statement)
    ensures q.text == UpdateText("topics", q.columns)
    ensures q.columns == Columns(input)
    ensures q.args == Values(input) + [IdArg(id)]
    ensures |q.args| == |q.columns| + 1 && q.args[|q.columns|] == IdArg(id)
  {
    TopicsPrefix();
    var query, columns, args, argIndex := AddAssignments(input, "UPDATE topics SET ");
    q := FinishUpdate("topics", query, columns, args, argIndex, id);
  }

  /** Each assignment of the SET list applied to `x` in turn; a column the
      table does not have, or a value of the wrong type, is an error. */
  function ApplyAssignments(x: Topic, columns: seq<string>, args: seq<Arg>): Option<Topic>
    requires |columns| == |args|
  {
    ApplyEach(x, columns, args, TopicStep)
  }

  /** One assignment to a topic row. */
  function TopicStep(x: Topic, column: string, arg: Arg): Option<Topic> {
    if column == "name" && arg.TextArg? then Some(x.(name := arg.s))
    else if column == "is_completed" && arg.BoolArg? then Some(x.(isCompleted := arg.b))
    else if column == "is_weak" && arg.BoolArg? then Some(x.(isWeak := arg.b))
    else None
  }

  /** How the store runs a topic update: a text that is not the well-formed
      `UPDATE topics SET <list> WHERE id = $n` is a syntax error; otherwise the
      row with that id, if any, gets the assignments, and its new name must fit
      the column. The result is the new tables and the number of rows affected. */
  function Run(t: Tables, q: QueryBuilder.Statement): Option<(Tables, nat)> {
    var k := |q.columns|;
    if k == 0 || |q.args| != k + 1 || q.text != UpdateText("topics", q.columns) || !q.args[k].IdArg? then None
    else
      var id := q.args[k].n;
      if !IsInteger(id) then None
      else match Find(t.topics, TopicKey, id)
        case None => Some((t, 0))
        case Some(x) =>
          match ApplyAssignments(x, q.columns, q.args[..k])
          case None => None
          case Some(y) =>
            match Varchar(y.name, TopicNameLength)
            case None => None
            case Some(name) => Some((SetTopic(t, id, name, y.isCompleted, y.isWeak), 1))
  }

  /** UpdateTopic as written: the statement is sent whatever the body held. */
  function Update(t: Tables, param: string, body: Body<UpdateTopicInput>): (Tables, Outcome<()>) {
    match Atoi(param)
    case None => (t, Err(BadRequest(InvalidTopicId)))
    case Some(id) =>
      if body.Malformed? then (t, Err(InvalidBody))
      else Answer(t, Run(t, UpdateStatement(body.value, id)), TopicNotFound)
  }

  method UpdateTopic(db: Store, param: string, body: Body<UpdateTopicInput>) returns (r: Outcome<()>)
    requires db.Valid()
    modifies db
    ensures db.Valid()
    ensures (db.State(), r) == Update(old(db.State()), param, body)
  {
    var id := Atoi(param);
    if id.None? {
      return Err(BadRequest(InvalidTopicId));
    }
    if body.Malformed? {
      return Err(InvalidBody);
    }
    var q := BuildUpdate(body.value, id.value);
    UpdateEffect(db.State(), param, body);
    var (u, outcome) := Answer(db.State(), Run(db.State(), q), TopicNotFound);
    r := outcome;
    if r.Ok? {
      db.Commit(u);
    }
  }

  /** The intended effect of a partial update: a non-empty name replaces the
      stored one, a present flag replaces its flag, and the rest is kept. */
  function Merge(x: Topic, input: UpdateTopicInput): Topic {
    x.(name := Coalesce(input.name, x.name),
       isCompleted := input.isCompleted.GetOr(x.isCompleted),
       isWeak := input.isWeak.GetOr(x.isWeak))
  }

  /** Running the built assignments on a row is the merge. */
  lemma AssignMerges(x: Topic, input: UpdateTopicInput)
    ensures ApplyAssignments(x, Columns(input), Values(input)) == Some(Merge(x, input))
  {
    var c, v := Columns(input), Values(input);
    var c1, v1 := if input.name != "" then ["name"] else [], if input.name != "" then [TextArg(input.name)] else [];
    var c2, v2 := if input.isCompleted.Some? then ["is_completed"] else [], if input.isCompleted.Some? then [BoolArg(input.isCompleted.value)] else [];
    var c3, v3 := if input.isWeak.Some? then ["is_weak"] else [], if input.isWeak.Some? then [BoolArg(input.isWeak.value)] else [];
    var x1 := x.(name := Coalesce(input.name, x.name));
    var x2 := x1.(isCompleted := input.isCompleted.GetOr(x.isCompleted));
    NameStep(x, input);
    CompletedStep(x1, input);
    WeakStep(x2, input);
    ApplyPrefix(x, c1, v1, c2 + c3, v2 + v3, TopicStep, x1);
    ApplyPrefix(x1, c2, v2, c3, v3, TopicStep, x2);
    assert c == c1 + (c2 + c3) && v == v1 + (v2 + v3);
  }

  lemma NameStep(x: Topic, input: UpdateTopicInput)
    ensures ApplyAssignments(x, if input.name != "" then ["name"] else [], if input.name != "" then [TextArg(input.name)] else [])
         == Some(x.(name := Coalesce(input.name, x.name)))
  {
    if input.name != "" {
      assert ["name"][1..] == [] && [TextArg(input.name)][1..] == [];
    }
  }

  lemma CompletedStep(x: Topic, input: UpdateTopicInput)
    ensures ApplyAssignments(x, if input.isCompleted.Some? then ["is_completed"] else [], if input.isCompleted.Some? then [BoolArg(input.isCompleted.value)] else [])
         == Some(x.(isCompleted := input.isCompleted.GetOr(x.isCompleted)))
  {
    if input.isCompleted.Some? {
      assert ["is_completed"][1..] == [] && [BoolArg(input.isCompleted.value)][1..] == [];
    }
  }

  lemma WeakStep(x: Topic, input: UpdateTopicInput)
    ensures ApplyAssignments(x, if input.isWeak.Some? then ["is_weak"] else [], if input.isWeak.Some? then [BoolArg(input.isWeak.value)] else [])
         == Some(x.(isWeak := input.isWeak.GetOr(x.isWeak)))
  {
    if input.isWeak.Some? {
      assert ["is_weak"][1..] == [] && [BoolArg(input.isWeak.value)][1..] == [];
    }
  }

  /** With at least one field supplied, the update rewrites the one topic with
      that id by the merge rule, when the merged name fits; a missing topic is
      a 404; no other row and no other table changes. */
  lemma UpdateEffect(t: Tables, param: string, body: Body<UpdateTopicInput>)
    requires Consistent(t)
    ensures var (u, r) := Update(t, param, body);
      && Consistent(u)
      && (r.Err? ==> u == t)
      && (Atoi(param).None? ==> r == Err(BadRequest(InvalidTopicId)))
      && (Atoi(param).Some? && body.Json? && Columns(body.value) != [] && IsInteger(Atoi(param).value) ==>
            (Atoi(param).value !in t.TopicIds() ==> r == Err(NotFound(TopicNotFound))))
      && (r.Ok? ==>
            && Atoi(param).Some? && Atoi(param).value in t.TopicIds() && body.Json?
            && u.subjects == t.subjects && u.notes == t.notes && u.plans == t.plans
            && |u.topics| == |t.topics|
            && forall i :: 0 <= i < |t.topics| ==>
                 if t.topics[i].id == Atoi(param).value
                 then && u.topics[i].id == t.topics[i].id && u.topics[i].subjectId == t.topics[i].subjectId
                      && StartsWith(Merge(t.topics[i], body.value).name, u.topics[i].name)
                      && u.topics[i].isCompleted == Merge(t.topics[i], body.value).isCompleted
                      && u.topics[i].isWeak == Merge(t.topics[i], body.value).isWeak
                 else u.topics[i] == t.topics[i])
  {
    if Atoi(param).Some? && body.Json? {
      RunUpdate(t, body.value, Atoi(param).value);
    }
  }

  /** `u` is `t` with topic `id` rewritten by the merge rule, its name cut to
      the column, and nothing else changed. */
  ghost predicate Rewritten(t: Tables, u: Tables, id: int, input: UpdateTopicInput) {
    && Consistent(u)
    && u.subjects == t.subjects && u.notes == t.notes && u.plans == t.plans
    && |u.topics| == |t.topics|
    && forall i :: 0 <= i < |t.topics| ==>
         if t.topics[i].id == id
         then && u.topics[i].id == t.topics[i].id && u.topics[i].subjectId == t.topics[i].subjectId
              && StartsWith(Merge(t.topics[i], input).name, u.topics[i].name)
              && u.topics[i].isCompleted == Merge(t.topics[i], input).isCompleted
              && u.topics[i].isWeak == Merge(t.topics[i], input).isWeak
         else u.topics[i] == t.topics[i]
  }

  /** What the store does with the built statement: no row for a missing
      topic, and a merge rewrite of the one row with that id otherwise. */
  lemma RunUpdate(t: Tables, input: UpdateTopicInput, id: int)
    requires Consistent(t)
    ensures var run := Run(t, UpdateStatement(input, id));
      && (Columns(input) != [] && IsInteger(id) && id !in t.TopicIds() ==> run == Some((t, 0)))
      && (run.Some? && run.value.1 > 0 ==>
            Columns(input) != [] && IsInteger(id) && id in t.TopicIds() && Rewritten(t, run.value.0, id, input))
  {
    var q := UpdateStatement(input, id);
    var run := Run(t, q);
    if Columns(input) != [] && IsInteger(id) && id in t.TopicIds() {
      RunFound(t, input, id);
    } else if run.Some? {
      assert q.args[..|q.columns|] == Values(input);
    }
  }

  /** The row with that id is there: the store answers with an error or with
      the one row rewritten; a name that fits leaves no room for an error,
      and the row becomes the merge exactly. */
  lemma RunFound(t: Tables, input: UpdateTopicInput, id: int)
    requires Consistent(t) && Columns(input) != [] && IsInteger(id) && id in t.TopicIds()
    ensures var run := Run(t, UpdateStatement(input, id));
      && (run.None? || run.value.1 == 1)
      && (run.Some? ==> Rewritten(t, run.value.0, id, input))
      && (|input.name| <= TopicNameLength ==>
            run.Some? && forall i :: 0 <= i < |t.topics| && t.topics[i].id == id ==> run.value.0.topics[i] == Merge(t.topics[i], input))
  {
    RunShape(t, input, id);
    var x := Find(t.topics, TopicKey, id).value;
    var m := Merge(x, input);
    var name := Varchar(m.name, TopicNameLength);
    if |input.name| <= TopicNameLength {
      assert |x.name| <= TopicNameLength;
      assert name == Some(m.name);
    }
    if name.Some? {
      SetTopicRewritten(t, x, input, name.value);
    }
  }

  /** The built statement, run against a table that has the row, yields the
      merge of that row, its name passed through the column's limit. */
  lemma RunShape(t: Tables, input: UpdateTopicInput, id: int)
    requires Columns(input) != [] && IsInteger(id) && id in t.TopicIds()
    ensures Find(t.topics, TopicKey, id).Some?
    ensures var m := Merge(Find(t.topics, TopicKey, id).value, input);
      var name := Varchar(m.name, TopicNameLength);
      Run(t, UpdateStatement(input, id)) == if name.None? then None else Some((SetTopic(t, id, name.value, m.isCompleted, m.isWeak), 1))
  {
    var q := UpdateStatement(input, id);
    assert |q.columns| == |Values(input)| && q.args[..|q.columns|] == Values(input);
    AssignMerges(Find(t.topics, TopicKey, id).value, input);
  }

  /** Writing the merge of the row `x` back under its id is a rewrite as
      Rewritten describes it; with the name unchanged by the column limit the
      row becomes the merge. */
  lemma SetTopicRewritten(t: Tables, x: Topic, input: UpdateTopicInput, name: string)
    requires Consistent(t) && x in t.topics && Varchar(Merge(x, input).name, TopicNameLength) == Some(name)
    ensures var u := SetTopic(t, x.id, name, Merge(x, input).isCompleted, Merge(x, input).isWeak);
      && Rewritten(t, u, x.id, input)
      && (name == Merge(x, input).name ==> forall i :: 0 <= i < |t.topics| && t.topics[i].id == x.id ==> u.topics[i] == Merge(t.topics[i], input))
  {
    var m := Merge(x, input);
    SetTopicConsistent(t, x.id, name, m.isCompleted, m.isWeak);
    forall i | 0 <= i < |t.topics| && t.topics[i].id == x.id ensures t.topics[i] == x {
      var j :| 0 <= j < |t.topics| && t.topics[j] == x;
      AssignUnique(t, i, j);
    }
  }

  lemma AssignUnique(t: Tables, i: int, j: int)
    requires Consistent(t) && 0 <= i < |t.topics| && 0 <= j < |t.topics| && t.topics[i].id == t.topics[j].id
    ensures t.topics[i] == t.topics[j]
  {
    AscendingUnique(t.topics, TopicKey, i, j);
  }

  /** Values that fit are merged exactly. */
  lemma UpdateMerges(t: Tables, param: string, body: Body<UpdateTopicInput>, i: int)
    requires Consistent(t) && Update(t, param, body).1.Ok?
    requires |body.value.name| <= TopicNameLength
    requires 0 <= i < |t.topics| && t.topics[i].id == Atoi(param).value
    ensures Update(t, param, body).0.topics[i] == Merge(t.topics[i], body.value)
  {
    var id := Atoi(param).value;
    var run := Run(t, UpdateStatement(body.value, id));
    assert Update(t, param, body) == Answer(t, run, TopicNotFound);
    RunUpdate(t, body.value, id);
    RunFound(t, body.value, id);
  }

  /** As written, a body that supplies no field yields the text
      `UPDATE topics SE WHERE id = $1`, which the store rejects: a 500 for every
      topic id, existing or not. */
  lemma UpdateWithoutFields(t: Tables, param: string, body: Body<UpdateTopicInput>)
    requires Atoi(param).Some? && body.Json? && Columns(body.value) == []
    ensures Update(t, param, body) == (t, Err(Internal))
    ensures UpdateStatement(body.value, Atoi(param).value).text == "UPDATE " + "topics" + " SE WHERE id = $1"
  {
    EmptyUpdateText("topics");
  }

  /** UpdateTopic with the guard UpdateStudyPlan has: a body with no field to
      update is a 400 and nothing is sent. */
  function UpdateGuarded(t: Tables, param: string, body: Body<UpdateTopicInput>): (Tables, Outcome<()>) {
    match Atoi(param)
    case None => (t, Err(BadRequest(InvalidTopicId)))
    case Some(id) =>
      if body.Malformed? then (t, Err(InvalidBody))
      else if Columns(body.value) == [] then (t, Err(BadRequest(NoFieldsToUpdate)))
      else Answer(t, Run(t, UpdateStatement(body.value, id)), TopicNotFound)
  }

  /** With the guard, every statement sent is well formed: the SET list with
      placeholders $1..$k and the id as placeholder $(k+1). */
  lemma UpdateGuardedText(input: UpdateTopicInput, id: int)
    requires Columns(input) != []
    ensures UpdateStatement(input, id).text
         == Head("topics") + SetList(Columns(input)) + Where(|Columns(input)| + 1)
  {
    UpdateTextShape("topics", Columns(input));
  }

  /** The guarded handler answers a body without fields with a 400 and
      otherwise agrees with the one as written, whose 404 then means exactly
      that the topic is missing. */
  lemma UpdateGuardedMeaning(t: Tables, param: string, body: Body<UpdateTopicInput>)
    requires Consistent(t)
    requires Atoi(param).Some? && body.Json?
    ensures Columns(body.value) == [] ==> UpdateGuarded(t, param, body) == (t, Err(BadRequest(NoFieldsToUpdate)))
    ensures Columns(body.value) != [] ==> UpdateGuarded(t, param, body) == Update(t, param, body)
    ensures Columns(body.value) != [] && IsInteger(Atoi(param).value) ==>
      (UpdateGuarded(t, param, body).1 == Err(NotFound(TopicNotFound)) <==> Atoi(param).value !in t.TopicIds())
  {
    if Columns(body.value) != [] {
      var id := Atoi(param).value;
      RunUpdate(t, body.value, id);
      if IsInteger(id) && id in t.TopicIds() {
        RunFound(t, body.value, id);
      }
    }
  }

  // ---------------------------------------------------------------------------
  // ToggleTopicComplete and ToggleTopicWeak: `SET flag = NOT flag WHERE id = $1`

  function FlipCompleted(x: Topic): Topic { x.(isCompleted := !x.isCompleted) }
  function FlipWeak(x: Topic): Topic { x.(isWeak := !x.isWeak) }

  /** A toggle: the flip applied to the row with the id, a 404 when none has it. */
  function Toggle(t: Tables, param: string, flip: Topic -> Topic): (Tables, Outcome<()>) {
    match Atoi(param)
    case None => (t, Err(BadRequest(InvalidTopicId)))
    case Some(id) =>
      if !IsInteger(id) then (t, Err(Internal))
      else if id !in t.TopicIds() then (t, Err(NotFound(TopicNotFound)))
      else (t.(topics := UpdateWhere(t.topics, TopicKey, id, flip)), Ok(()))
  }

  function ToggleComplete(t: Tables, param: string): (Tables, Outcome<()>) { Toggle(t, param, FlipCompleted) }
  function ToggleWeak(t: Tables, param: string): (Tables, Outcome<()>) { Toggle(t, param, FlipWeak) }

  /** A toggle flips one flag of the one topic with that id: the rest of the
      row, every other row and every other table stay; the schema invariant
      is kept. */
  lemma ToggleEffect(t: Tables, param: string, weak: bool)
    requires Consistent(t)
    ensures var (u, r) := if weak then ToggleWeak(t, param) else ToggleComplete(t, param);
      && Consistent(u)
      && (r.Err? ==> u == t)
      && (Atoi(param).Some? && IsInteger(Atoi(param).value) ==>
            (r.Ok? <==> Atoi(param).value in t.TopicIds()) && (r.Err? ==> r == Err(NotFound(TopicNotFound))))
      && (r.Ok? ==>
            && u.subjects == t.subjects && u.notes == t.notes && u.plans == t.plans
            && |u.topics| == |t.topics|
            && forall i :: 0 <= i < |t.topics| ==>
                 u.topics[i] == if t.topics[i].id != Atoi(param).value then t.topics[i]
                                else if weak then t.topics[i].(isWeak := !t.topics[i].isWeak)
                                else t.topics[i].(isCompleted := !t.topics[i].isCompleted))
  {
    var flip := if weak then FlipWeak else FlipCompleted;
    var (u, r) := Toggle(t, param, flip);
    if r.Ok? {
      var id := Atoi(param).value;
      UpdateWhereKeys(t.topics, TopicKey, id, flip);
      assert u.TopicIds() == t.TopicIds();
      forall x | x in u.topics ensures x.subjectId in u.SubjectIds() && |x.name| <= TopicNameLength {
        var i :| 0 <= i < |u.topics| && u.topics[i] == x;
        assert t.topics[i] in t.topics;
      }
    }
  }

  /** Toggling twice restores the table. */
  lemma ToggleTwice(t: Tables, param: string, weak: bool)
    requires Consistent(t)
    ensures var toggle := if weak then ToggleWeak else ToggleComplete;
      toggle(t, param).1.Ok? ==> toggle(toggle(t, param).0, param) == (t, Ok(()))
  {
    var flip := if weak then FlipWeak else FlipCompleted;
    var (u, r) := Toggle(t, param, flip);
    if r.Ok? {
      var id := Atoi(param).value;
      UpdateWhereKeys(t.topics, TopicKey, id, flip);
      assert u.TopicIds() == t.TopicIds();
      var w := Toggle(u, param, flip).0;
      assert w.topics == t.topics;
    }
  }

  method ToggleTopic(db: Store, param: string, weak: bool) returns (r: Outcome<()>)
    requires db.Valid()
    modifies db
    ensures db.Valid()
    ensures (db.State(), r) == if weak then ToggleWeak(old(db.State()), param) else ToggleComplete(old(db.State()), param)
  {
    var id := Atoi(param);
    if id.None? {
      return Err(BadRequest(InvalidTopicId));
    }
    if !IsInteger(id.value) {
      return Err(Internal);
    }
    if id.value !in db.State().TopicIds() {
      return Err(NotFound(TopicNotFound));
    }
    var flip := if weak then FlipWeak else FlipCompleted;
    ToggleEffect(db.State(), param, weak);
    db.Commit(db.State().(topics := UpdateWhere(db.topics, TopicKey, id.value, flip)));
    r := Ok(());
  }

  // ---------------------------------------------------------------------------
  // DeleteTopic

  function Delete(t: Tables, param: string): (Tables, Outcome<()>) {
    match Atoi(param)
    case None => (t, Err(BadRequest(InvalidTopicId)))
    case Some(id) =>
      if !IsInteger(id) then (t, Err(Internal))
      else if id !in t.TopicIds() then (t, Err(NotFound(TopicNotFound)))
      else (Database.DeleteTopic(t, id), Ok(()))
  }

  /** Deleting a topic removes it alone and releases the notes that pointed at it. */
  lemma DeleteEffect(t: Tables, param: string)
    requires Consistent(t)
    ensures var (u, r) := Delete(t, param);
      && Consistent(u)
      && (r.Err? ==> u == t)
      && (Atoi(param).Some? && IsInteger(Atoi(param).value) ==>
            (r.Ok? <==> Atoi(param).value in t.TopicIds()) && (r.Err? ==> r == Err(NotFound(TopicNotFound))))
      && (r.Ok? ==>
            && (forall x :: x in u.topics <==> x in t.topics && x.id != Atoi(param).value)
            && |u.topics| == |t.topics| - 1
            && |u.notes| == |t.notes|
            && (forall i :: 0 <= i < |t.notes| ==>
                  u.notes[i] == if t.notes[i].topicId == Some(Atoi(param).value) then t.notes[i].(topicId := None) else t.notes[i])
            && u.subjects == t.subjects && u.plans == t.plans)
  {
    if Delete(t, param).1.Ok? {
      DeleteTopicEffect(t, Atoi(param).value);
      DeleteTopicConsistent(t, Atoi(param).value);
    }
  }

  method DeleteTopic(db: Store, param: string) returns (r: Outcome<()>)
    requires db.Valid()
    modifies db
    ensures db.Valid()
    ensures (db.State(), r) == Delete(old(db.State()), param)
  {
    var id := Atoi(param);
    if id.None? {
      return Err(BadRequest(InvalidTopicId));
    }
    if !IsInteger(id.value) {
      return Err(Internal);
    }
    var rowsAffected := |Filter(db.topics, (x: Topic) => x.id == id.value)|;
    if rowsAffected == 0 {
      assert id.value !in db.State().TopicIds() by {
        KeysMember(db.topics, TopicKey, id.value);
      }
      return Err(NotFound(TopicNotFound));
    }
    assert id.value in db.State().TopicIds() by {
      var f := Filter(db.topics, (x: Topic) => x.id == id.value);
      assert f[0] in f;
      KeyOf(db.topics, TopicKey, f[0]);
    }
    DeleteTopicConsistent(db.State(), id.value);
    db.Commit(Database.DeleteTopic(db.State(), id.value));
    r := Ok(());
  }
}

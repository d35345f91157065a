# Preparation system: a verified model of its core

The Preparation system is a study planner. **Subjects** are grouped into **topics**, and each topic can be marked completed or weak. A subject also has **notes** and dated **study-plan** sessions with planned and completed hours, and a **dashboard** shows progress towards an exam date. The backend is a set of gin handlers in Go over a Postgres database. The frontend is a set of React pages that call it through a small API client.

This project models the logic of that core in Dafny and proves what it promises:

- **The record store.** `Database.Tables` holds the four tables, with their foreign-key and cascade rules as the invariant `Consistent`. `Database.Store` is the mutable database the handlers update. Insert defaults, `UPDATE` merges, cascading deletes, `ON DELETE SET NULL` and the idempotent seeding of subjects are pure transitions with lemmas about them.
- **The handlers.** Every handler of the modelled files is a method over the store: binding failures, non-numeric ids, not-found answers, store errors and the HTTP status of each outcome. Each method is proved equal to a pure function, and the lemmas state the function's effect: what changes, what stays and when it fails. Listing order is explicit, for example `ORDER BY id` or `study_date DESC`.
- **The dynamic `UPDATE … SET` builders** of the study-plan and topic handlers. Placeholder numbering, the cut of the trailing `", "`, the `WHERE id = $n` clause and the meaning of the built statement are all modelled. They live in `QueryBuilder`, `StudyPlanHandler` and `TopicHandler`.
- **Progress aggregation.** Counts per subject and overall, percentages guarded against division by zero, and the dashboard's day countdown over a calendar with leap years.
- **The pages and the API client.**
  - Topics: the counts, the rounded percentage and the whitespace guard.
  - Progress: the folds and the remaining count.
  - Study plan: the today, upcoming and past buckets, the five shown past sessions and the completion bar.
  - Notes: the subject lookup with its fallback and the modal's form state.
  - The API client's base-URL normalisation.

Time, the clock, environment variables and store faults are parameters. "Today" is a `YYYY-MM-DD` string. The clock is the current instant, as a count of UTC seconds, together with the server zone's offset from UTC. `EXAM_DATE` and `VITE_API_URL` are strings. Which store query fails is a flag or a set of step indices. Percentages and hours are exact `real`s.

Modules follow the source files:

| module | source |
|---|---|
| `Database` | backend/database/connection.go |
| `DashboardHandler` | backend/handlers/dashboard_handler.go |
| `StudyPlanHandler` | backend/handlers/study_plan_handler.go |
| `TopicHandler` | backend/handlers/topic_handler.go |
| `SubjectHandler` | backend/handlers/subject_handler.go |
| `NoteHandler` | backend/handlers/note_handler.go |
| `ProgressPage` | frontend/src/pages/Progress.jsx |
| `TopicsPage` | frontend/src/pages/Topics.jsx |
| `StudyPlanPage` | frontend/src/pages/StudyPlan.jsx |
| `NotesPage` | frontend/src/pages/Notes.jsx |
| `Api` | frontend/src/services/api.js |

Shared helpers live in their own modules:

- `Models` holds the structs of backend/models and the outcomes and messages.
- `Aggregate` does the counting.
- `QueryBuilder` renders the SQL text.
- `Dates` handles the calendar and the ISO date order.
- `Text` holds string order, `strconv` and JavaScript white space.
- `Seqs` holds generic filtering, sorting and lookup.
- `Wrappers` holds `Option`.

## Model

| member | source | states |
|---|---|---|
| Aggregate.CountTopics | backend/handlers/dashboard_handler.go:72-74 | the three topic counts: the total is the number of topics, and completed and weak never exceed it |
| Aggregate.CountTopicsAppend | backend/handlers/dashboard_handler.go:72-74 | the counts over two concatenated lists are the sums of their counts |
| Aggregate.CountTopicsOne | backend/handlers/dashboard_handler.go:72-74 | proof helper for the COUNT lemmas: one topic counts 1, plus 1 completed if it is completed and 1 weak if it is weak |
| Aggregate.CountTopicsSnoc | backend/handlers/dashboard_handler.go:72-74 | appending one topic adds its tally to the counts |
| Aggregate.Percent | backend/handlers/dashboard_handler.go:77-80 | 0 when the whole is 0; within [0, 100] when part <= whole; 100 when every item counts |
| Aggregate.PercentRatio | backend/handlers/dashboard_handler.go:78-79 | with a positive whole, the percentage is to 100 as the part is to the whole |
| Aggregate.Progress | backend/handlers/subject_handler.go:40-42 | a subject's progress lies in [0, 100] and is 0 when it has no topics |
| Aggregate.SubjectCounts | backend/handlers/subject_handler.go:15-24 | the LEFT JOIN group of a subject that no topic joins has zero counts |
| Aggregate.PerSubject | backend/handlers/dashboard_handler.go:102-111 | one row per subject, in table order, each with the counts of that subject's own topics |
| Aggregate.SubjectCountsSnoc | backend/handlers/dashboard_handler.go:103-110 | one more topic adds its tally to its own subject's group and leaves every other group unchanged |
| Aggregate.SumSnoc | backend/handlers/dashboard_handler.go:103-110 | summing the per-subject rows adds the last subject's group to the sum over the other subjects |
| Aggregate.AscendingInit | backend/handlers/dashboard_handler.go:109-110 | dropping the last row keeps the ids ascending, and the dropped id does not occur among the rest |
| Aggregate.TallySplit | backend/handlers/dashboard_handler.go:108 | proof helper for SumAddTopic: a topic that joins at most one of two groups adds its tally to that group only |
| Aggregate.SumAddTopic | backend/handlers/dashboard_handler.go:103-110 | with ids unique, a new topic adds its tally to the sum of the groups once when its subject exists, and not at all otherwise |
| Aggregate.SumPerSubjectCounts | backend/handlers/dashboard_handler.go:72-110 | when subject ids are unique and every topic's subject exists, the per-subject rows add up to the table-wide counts, so no topic is missed or counted twice |
| Aggregate.SumZero | backend/handlers/dashboard_handler.go:104-106 | with no topics, every COALESCEd per-subject count is 0 |
| Aggregate.SumPerSubject | backend/handlers/dashboard_handler.go:72-110 | in every consistent database, the per-subject groups partition the topics |
| Api.Configured | frontend/src/services/api.js:3 | an absent or empty VITE_API_URL gives the local default; any other value is used as given |
| Api.Normalize | frontend/src/services/api.js:5-11 | everything before the URL's last character is kept, and at most four characters are added |
| Api.BaseUrl | frontend/src/services/api.js:3-12 | API_BASE_URL, the normalised configured URL, always ends with "/api" |
| Api.ComputeBaseUrl | frontend/src/services/api.js:3-11 | the URL the sequential reassignments compute is the normalised configured URL, and it ends with "/api" |
| Api.NormalizeEndsWithApi | frontend/src/services/api.js:9-11 | the normalised URL always ends with "/api" |
| Api.NormalizeShape | frontend/src/services/api.js:5-11 | the result is the URL with at most one trailing "/" removed, then "/api" appended or not; nothing else changes |
| Api.NormalizeKeepsApi | frontend/src/services/api.js:5-11 | a URL that already ends with "/api" is returned unchanged |
| Api.NormalizeTrailingSlash | frontend/src/services/api.js:5-11 | a URL ending with "/api/" loses only the slash, so "/api" is not doubled |
| Api.NormalizeIdempotent | frontend/src/services/api.js:5-11 | normalising twice gives the same result as normalising once |
| Api.DefaultBaseUrl | frontend/src/services/api.js:3-11 | without a configured URL (absent or empty), requests go to http://localhost:8080/api |
| DashboardHandler.ExamDateString | backend/handlers/dashboard_handler.go:49-52 | an empty EXAM_DATE is replaced by "2026-02-11"; any other value is kept as given, even when it does not parse |
| DashboardHandler.ExamDate | backend/handlers/dashboard_handler.go:54-57 | the date counted to is always a valid calendar date: the parsed value, or 11 February 2026 when the text does not parse |
| DashboardHandler.ExamInstant | backend/handlers/dashboard_handler.go:54-57 | a date that parses is counted to UTC midnight of that day, as `time.Parse` returns it; the fallback is local midnight of 11 February 2026, as `time.Date(..., time.Local)` builds it |
| DashboardHandler.ParseExamDate | backend/handlers/dashboard_handler.go:54-57 | the parse and its fallback branch give exactly the exam instant: UTC midnight of a parsed date, local midnight of the fallback |
| DashboardHandler.DefaultExamDateAgrees | backend/handlers/dashboard_handler.go:51-56 | the default text parses to the fallback's calendar day, but an unset variable counts to UTC midnight and an unparsable one to local midnight: the two instants differ by the zone offset, and the counts agree when the server runs on UTC |
| DashboardHandler.WholeDays | backend/handlers/dashboard_handler.go:61 | `int(hours / 24)` truncates toward zero: the whole days in a non-negative span, and minus the whole days in a negative one |
| DashboardHandler.DaysUntil | backend/handlers/dashboard_handler.go:59-64 | never negative; 0 once the exam instant is less than a day away; otherwise the whole days until that instant |
| DashboardHandler.DaysUntilShift | backend/handlers/dashboard_handler.go:61-64 | a later exam instant never gives fewer days, and one less than a day later gives at most one more |
| DashboardHandler.UtcAgainstLocal | backend/handlers/dashboard_handler.go:54-64 | counting to the UTC midnight a parsed date gives, instead of local midnight, moves the figure by at most one day: up east of UTC, down west of it, not at all on UTC |
| DashboardHandler.DaysUntilPassed | backend/handlers/dashboard_handler.go:59-64 | on the local exam day and after it, the count is 0, whether the exam is counted to its UTC or its local midnight |
| DashboardHandler.DaysUntilAhead | backend/handlers/dashboard_handler.go:56-64 | before the exam day, counted to local midnight (the fallback date), the count is the calendar days between today and the exam, less one once part of today has passed |
| DashboardHandler.ParsedAndFallbackDiffer | backend/handlers/dashboard_handler.go:54-61 | at 20:00 two days before the exam on a server five hours behind UTC, a date that parses (the default among them) shows 0 days while the fallback shows 1 |
| DashboardHandler.TodayItems | backend/handlers/dashboard_handler.go:84-99 | the today query has one row per plan row dated today |
| DashboardHandler.ProgressItems | backend/handlers/dashboard_handler.go:102-124 | one row per subject in table order, carrying its id, name, colour, its own topic counts and their progress |
| DashboardHandler.GetDashboard | backend/handlers/dashboard_handler.go:47-139 | the handler's sequence of queries and loops builds exactly the dashboard value of the current database |
| DashboardHandler.Countdown | backend/handlers/dashboard_handler.go:48-64 | the reported exam date and the clamped whole days from the current instant to the exam instant: UTC midnight for a date that parses, local midnight for the fallback |
| DashboardHandler.Totals | backend/handlers/dashboard_handler.go:66-80 | each count query gives the table's count, or 0 when it fails; the overall figure is the percentage of the two counts read |
| DashboardHandler.TodayRows | backend/handlers/dashboard_handler.go:91-99 | the row loop collects exactly the rows of the today query |
| DashboardHandler.ProgressRows | backend/handlers/dashboard_handler.go:113-124 | the row loop collects exactly the rows of the grouped query |
| DashboardHandler.ProgressItemsAt | backend/handlers/dashboard_handler.go:116-122 | the i-th row collected is built from the i-th subject and its counts |
| DashboardHandler.ProgressRow | backend/handlers/dashboard_handler.go:117-121 | one pass of the loop: the progress stays 0 unless the subject has topics |
| DashboardHandler.DashboardCounts | backend/handlers/dashboard_handler.go:66-124 | when every query answers, the counts are those of the topics table, the overall figure is their share in [0, 100], and the per-subject totals add up to the global ones |
| DashboardHandler.DashboardSubjects | backend/handlers/dashboard_handler.go:102-124 | every subject has exactly one progress row, in ascending id order, with its own counts within bounds and a progress in [0, 100]; a subject without topics shows zeros |
| DashboardHandler.ProgressItemsOrder | backend/handlers/dashboard_handler.go:107-110 | the progress rows have ascending ids, and every subject has its row |
| DashboardHandler.ProgressItemsRows | backend/handlers/dashboard_handler.go:102-124 | each progress row carries its subject's fields and counts, completed and weak never exceed the total, and the progress is 0 without topics |
| DashboardHandler.DashboardToday | backend/handlers/dashboard_handler.go:82-99 | today's plan has one item per plan row dated today, in table order, each with its subject's name and colour |
| DashboardHandler.TodayItemsMeaning | backend/handlers/dashboard_handler.go:84-98 | the i-th item copies the i-th dated plan row's hours and its joined subject's name and colour |
| DashboardHandler.DashboardFaults | backend/handlers/dashboard_handler.go:66-124 | a failing query never turns the dashboard into an error: a failed count reads 0, a failed list is empty, and a failed topic count leaves the overall figure at 0 |
| DashboardHandler.ProgressReport | backend/handlers/dashboard_handler.go:142-174 | GetProgress answers a 500 exactly when its query fails, and the per-subject rows otherwise |
| DashboardHandler.ProgressAgrees | backend/handlers/dashboard_handler.go:102-174 | GetProgress serves the same rows as the dashboard's subject_progress; on a failure it reports an error where the dashboard shows an empty list |
| DashboardHandler.GetProgress | backend/handlers/dashboard_handler.go:142-174 | the handler's row loop builds exactly the progress report |
| Database.Varchar | backend/database/connection.go:53-70 | a value too long for VARCHAR(n) is refused exactly when it has a non-space past the limit; otherwise the stored value fits and is the input less trailing spaces, and a value that fits is stored as given |
| Database.EmptyConsistent | backend/database/connection.go:49-95 | the four freshly created tables satisfy the schema invariant |
| Database.InsertSubjectEffect | backend/database/connection.go:51-57 | the insert fails exactly when the name or colour is too long; otherwise it appends one row with a fresh SERIAL id and the given description, and leaves the other tables alone (see also backend/handlers/subject_handler.go:95-98) |
| Database.InsertTopicEffect | backend/database/connection.go:58-65 | the insert fails exactly when the name is too long or the subject does not exist; the new last row has a fresh id and starts neither completed nor weak (see also backend/handlers/topic_handler.go:54-57) |
| Database.InsertNoteEffect | backend/database/connection.go:66-74 | the insert fails exactly when the title is too long or the subject or given topic does not exist; the new last row has a fresh id, the given fields and updated_at = now (see also backend/handlers/note_handler.go:83-86) |
| Database.InsertPlanEffect | backend/database/connection.go:75-83 | the insert fails exactly when the date is not a date or the subject does not exist; the new last row has a fresh id and hours_completed 0.0 (see also backend/handlers/study_plan_handler.go:90-93) |
| Database.InsertPreservesForeignKeys | backend/database/connection.go:60-77 | appending rows keeps every key present, so foreign keys that held still hold |
| Database.SetSubjectConsistent | backend/database/connection.go:51-57 | rewriting a subject with values that fit keeps the schema invariant (see also backend/handlers/subject_handler.go:122-125) |
| Database.SetTopicConsistent | backend/database/connection.go:58-65 | rewriting a topic with a name that fits keeps the schema invariant (see also backend/handlers/topic_handler.go:107) |
| Database.SetNoteConsistent | backend/database/connection.go:66-74 | rewriting a note with a title that fits and an existing topic, or none, keeps the schema invariant (see also backend/handlers/note_handler.go:110-113) |
| Database.SetPlanConsistent | backend/database/connection.go:75-83 | rewriting a plan's hours and notes keeps the schema invariant (see also backend/handlers/study_plan_handler.go:148) |
| Database.Answer | backend/handlers/topic_handler.go:107-119 | after Exec: a store error is a 500 and changes nothing, no affected row is a 404 that changes nothing, and otherwise the statement's tables are kept with a 200 |
| Database.ReleaseTopics | backend/database/connection.go:69 | ON DELETE SET NULL: exactly the notes that reference a deleted topic lose their topic, and every note stays in place |
| Database.ReleaseTopicsKeys | backend/database/connection.go:69 | releasing topics changes no note id |
| Database.DeleteTopicEffect | backend/handlers/topic_handler.go:180 | deleting a topic removes that topic only, keeps every note, and clears the topic of exactly the notes that referred to it (see also backend/database/connection.go:69) |
| Database.DeleteTopicConsistent | backend/handlers/topic_handler.go:180 | the schema invariant survives deleting a topic (see also backend/database/connection.go:66-74) |
| Database.IdsBelowSubset | backend/database/connection.go:52-76 | the ids of a subset of rows still lie below their sequence |
| Database.DeleteSubjectEffect | backend/handlers/subject_handler.go:149 | deleting a subject keeps exactly the other subjects, and cascades to exactly that subject's topics and plan rows (see also backend/database/connection.go:60-77) |
| Database.DeleteSubjectNotes | backend/handlers/subject_handler.go:149 | the notes kept are exactly those of other subjects, in order; a kept note loses its topic only when that topic went with the subject (see also backend/database/connection.go:68-69) |
| Database.DeleteSubjectConsistent | backend/handlers/subject_handler.go:149 | the schema invariant survives deleting a subject and its cascades (see also backend/database/connection.go:51-83) |
| Database.DeleteSubjectKeepsSubjects | backend/handlers/subject_handler.go:149 | after a subject delete the subjects table still satisfies its part of the invariant (see also backend/database/connection.go:51-57) |
| Database.DeleteSubjectKeepsTopics | backend/handlers/subject_handler.go:149 | after a subject delete every remaining topic's subject exists and ids still ascend (see also backend/database/connection.go:58-65) |
| Database.DeleteSubjectKeepsPlans | backend/handlers/subject_handler.go:149 | after a subject delete every remaining plan's subject exists (see also backend/database/connection.go:75-83) |
| Database.DeleteSubjectKeepsNotes | backend/handlers/subject_handler.go:149 | after a subject delete every remaining note's subject and topic exist (see also backend/database/connection.go:66-74) |
| Database.DeleteNoteEffect | backend/handlers/note_handler.go:137 | deleting a note removes that note alone and keeps the invariant |
| Database.DeletePlanEffect | backend/handlers/study_plan_handler.go:171 | deleting a plan entry removes that entry alone and keeps the invariant |
| Database.SeedsFit | backend/database/connection.go:104-108 | every seed's name and colour fit their columns, so no seed insert fails on a constraint |
| Database.CountNamed | backend/database/connection.go:114 | the count of subjects with a name is 0 exactly when no subject has that name |
| Database.SeedFirstNext | backend/database/connection.go:111-129 | processing the first j+1 seeds is processing the first j and then seed j |
| Database.SeedFits | backend/database/connection.go:104-123 | a fitting seed is always inserted |
| Database.SeedRunStep | backend/database/connection.go:111-129 | on a seed with no store error, the run goes on from the next seed after one step |
| Database.SeedRunFrom | backend/database/connection.go:111-129 | across a stretch of seeds with no store error, the run is the run from the end of the stretch |
| Database.SeedWithoutFaults | backend/database/connection.go:111-131 | with no store error, SeedSubjects returns nil and leaves the seeded database |
| Database.SeedStopsAtFirstFault | backend/database/connection.go:114-126 | the first store error ends the loop and is returned; the seeds before it are processed, it and the rest are not |
| Database.SeedFirstGrows | backend/database/connection.go:111-129 | seeding only appends subjects, leaves the other tables untouched and keeps the schema invariant |
| Database.SeedKeepsName | backend/database/connection.go:111-129 | a subject name present stays present while seeding |
| Database.SeedStepKeepsName | backend/database/connection.go:119-128 | one seeding step keeps every name already present |
| Database.SeededHasAllNames | backend/database/connection.go:97-131 | after seeding, every seed's name is present |
| Database.SeedHasName | backend/database/connection.go:113-128 | right after its own step, a seed's name is present |
| Database.SeedAllPresent | backend/database/connection.go:119 | when every seed name is already present, seeding changes nothing |
| Database.SeededIdempotent | backend/database/connection.go:97-131 | seeding is idempotent: a second run changes nothing |
| Database.SeedStepInsertsOnlyMissing | backend/database/connection.go:113-128 | a seed is inserted, as the new last row with the next id, exactly when no subject has its name yet |
| Database.Store.constructor | backend/database/connection.go:49-95 | the database after InitTables: four empty, consistent tables |
| Database.Store.Commit | backend/handlers/topic_handler.go:107 | the tables become the statement's result; the invariant is kept |
| Database.SeedSubjects | backend/database/connection.go:98-132 | the loop's effect and result are those of the seed run over the five seeds, stopping at the first store error |
| Database.SeedOne | backend/database/connection.go:112-128 | one pass of the loop body: either an error that ends the run, or the run goes on from the next seed |
| Dates.ParseIsoDate | backend/handlers/dashboard_handler.go:54 | a parsed date has the YYYY-MM-DD shape, a four-digit year, a month from 1 to 12 and a day that exists in that month (29 February only in leap years) |
| Dates.DigitsBound | backend/handlers/study_plan_handler.go:20 | a string of n digits has a value below 10^n |
| Dates.DigitsValueFront | backend/handlers/study_plan_handler.go:20 | a digit string's value is its first digit times its place value plus the value of the rest |
| Dates.LeadingDigit | backend/handlers/study_plan_handler.go:20 | a smaller leading digit gives a smaller number, whatever follows |
| Dates.DigitsOrder | frontend/src/pages/StudyPlan.jsx:77-79 | equal-length digit strings compare as strings exactly as their values compare |
| Dates.LeadingDigitOrder | frontend/src/pages/StudyPlan.jsx:77-79 | of two equal-length digit strings, the one with the smaller first digit has the smaller value |
| Dates.StrLessConcat | frontend/src/pages/StudyPlan.jsx:77-79 | comparing two concatenations whose first parts have the same length compares the first parts, and the rest only when those are equal |
| Dates.IsoStringOrder | frontend/src/pages/StudyPlan.jsx:77-79 | for well-formed dates, string order of YYYY-MM-DD values is calendar order, and equal strings are equal dates (both directions) (see also backend/handlers/study_plan_handler.go:20) |
| Dates.MonthsGrow | backend/handlers/dashboard_handler.go:61 | a later month starts after the whole of each earlier month |
| Dates.YearsGrow | backend/handlers/dashboard_handler.go:61 | a later year starts after the whole of each earlier year |
| Dates.DayNumberOrder | backend/handlers/dashboard_handler.go:61 | day numbers follow calendar order |
| Models.Status | backend/handlers/topic_handler.go:69-117 | the HTTP status of each failure: 404 exactly for not found, 500 exactly for a store error, 400 exactly for a bad body or a bad id |
| NoteHandler.NewestFirstPreorder | backend/handlers/note_handler.go:18 | newest-first is a total preorder on notes |
| NoteHandler.Newest | backend/handlers/note_handler.go:15-19 | the same notes as many times each, ordered by updated_at descending |
| NoteHandler.GetAllNotes | backend/handlers/note_handler.go:14-38 | the row loop serves every note once, newest first, exactly the ordered query result |
| NoteHandler.NotesBySubject | backend/handlers/note_handler.go:41-72 | a parameter that is not an integer is a 400 "Invalid subject ID"; an int64 id outside INTEGER is a store error; otherwise the served notes are exactly that subject's, newest first |
| NoteHandler.NotesBySubjectMembers | backend/handlers/note_handler.go:48-53 | the served notes are exactly the stored notes with that subject, each once |
| NoteHandler.CountOnce | backend/database/connection.go:67 | in a table with unique ids a row occurs once |
| NoteHandler.GetNotesBySubject | backend/handlers/note_handler.go:41-72 | the handler serves exactly NotesBySubject |
| NoteHandler.CreateEffect | backend/handlers/note_handler.go:75-94 | a created note is appended with a fresh id and updated now; with the required fields present it is refused exactly when a value does not fit or a reference names nothing; a failure changes nothing |
| NoteHandler.CreateAcceptsOtherSubjectsTopic | backend/handlers/note_handler.go:83-86 | nothing ties a note's topic to its subject: an existing topic of another subject is accepted |
| NoteHandler.CreateNote | backend/handlers/note_handler.go:75-94 | the handler's effect and answer are those of Create |
| NoteHandler.UpdateEffect | backend/handlers/note_handler.go:97-127 | a bad id is a 400 and a missing note a 404; a success rewrites the one note with that id, setting its content, topic and updated_at and a title that is a prefix of the merged title; a failure changes nothing |
| NoteHandler.UpdateMerges | backend/handlers/note_handler.go:110-113 | a title that fits is merged exactly: COALESCE(NULLIF(title, '')), content and topic_id as sent |
| NoteHandler.UpdatedNoteComesFirst | backend/handlers/note_handler.go:111 | when the clock has passed every stored timestamp, the note just updated heads the GET /notes listing (see also backend/handlers/note_handler.go:18) |
| NoteHandler.StampedFirst | backend/handlers/note_handler.go:111 | rewriting one note with a timestamp later than all others puts it first in newest-first order |
| NoteHandler.NewestUnique | backend/handlers/note_handler.go:18 | the one row with the latest timestamp comes first |
| NoteHandler.UpdateNote | backend/handlers/note_handler.go:97-127 | the handler's effect and answer are those of Update |
| NoteHandler.DeleteEffect | backend/handlers/note_handler.go:130-150 | with an integer id, the delete succeeds exactly when the note exists, and otherwise answers 404; a success removes that note alone |
| NoteHandler.DeleteNote | backend/handlers/note_handler.go:130-150 | the handler's effect and answer are those of Delete |
| NotesPage.SubjectName | frontend/src/pages/Notes.jsx:83-86 | with no subject of that id, the label is 'Unknown' |
| NotesPage.SubjectColor | frontend/src/pages/Notes.jsx:88-91 | with no subject of that id, the colour is '#3498db' |
| NotesPage.LookupFirstMatch | frontend/src/pages/Notes.jsx:83-91 | with a matching id, both lookups read the first subject with that id: name and colour of the same item |
| NotesPage.LabelOf | frontend/src/pages/Notes.jsx:83-91 | looking up an id of one of the listed subjects gives that subject's own name and colour |
| NotesPage.StoredNoteLabel | frontend/src/pages/Notes.jsx:83-91 | a stored note's subject always exists, so against the served subjects its card shows that subject's name and colour, never the fallback (see also backend/handlers/subject_handler.go:14-47) |
| NotesPage.RequestKind | frontend/src/pages/Notes.jsx:55-64 | submit calls update exactly when a note is being edited, and then with that note's id; either way it sends the form's title and content |
| NotesPage.EditUnchanged | frontend/src/pages/Notes.jsx:32-61 | opening a note and submitting without changes sends its own subject, title and content back to that note |
| NotesPage.PageEditEffect | frontend/src/pages/Notes.jsx:53-61 | an accepted edit through the page keeps the note's subject whatever the form says, takes the form's content and always clears the note's topic, because the page sends no topic_id; were handleSubmit reached with an empty title (the form's `required` check stops that), the note would keep its title (see also backend/handlers/note_handler.go:110-113) |
| NotesPage.NewFormDefault | frontend/src/pages/Notes.jsx:39-41 | against the served subjects, a new note defaults to the subject with the smallest id; with no subjects the form has none, so it cannot be submitted (the create handleSubmit would build, were it reached, carries no subject id) |
| NotesPage.NoteModal.constructor | frontend/src/pages/Notes.jsx:8-10 | the modal starts hidden, with no note and an empty form |
| NotesPage.NoteModal.OpenModal | frontend/src/pages/Notes.jsx:31-44 | opening shows the modal; an existing note is copied into the form, and a new note gets the default form with editingNote null |
| NotesPage.NoteModal.CloseModal | frontend/src/pages/Notes.jsx:46-50 | closing hides the modal, resets editingNote to null and empties the form |
| NotesPage.NoteModal.Submit | frontend/src/pages/Notes.jsx:52-70 | a request is sent exactly when the form passes the `required` check (a subject chosen and a non-empty title), and it is then the update or create for the state before the call, with a subject id and a title; success closes the modal, and failure or a blocked submit leaves the state as it was (see also frontend/src/pages/Notes.jsx:171-195) |
| ProgressPage.Totals | frontend/src/pages/Progress.jsx:27-29 | definition: the three `reduce` folds as one left fold of the rows' counts from zero; TotalsOfRows, TotalsWellCounted and EmptyOverview state its properties |
| ProgressPage.Overall | frontend/src/pages/Progress.jsx:30 | definition: the guarded share of the summed counts; OverallInRange and SummedNotAveraged state its properties |
| ProgressPage.Remaining | frontend/src/pages/Progress.jsx:112 | definition: a subject's topics minus its completed ones; RemainingCompletes states its properties |
| ProgressPage.EmptyOverview | frontend/src/pages/Progress.jsx:27-30 | with no rows every total is 0 and so is the overall figure |
| ProgressPage.TotalsWellCounted | frontend/src/pages/Progress.jsx:27-29 | summed consistent rows are consistent: completed and weak never exceed the total |
| ProgressPage.OverallInRange | frontend/src/pages/Progress.jsx:30 | the overall figure lies in [0, 100], and is 100 exactly when there are topics and all are completed |
| ProgressPage.SummedNotAveraged | frontend/src/pages/Progress.jsx:27-30 | the figure weighs subjects by their topics: 1 of 1 and 0 of 3 give 25, where the mean of the subject percentages would be 50 |
| ProgressPage.RemainingCompletes | frontend/src/pages/Progress.jsx:112 | for a consistent row, the remaining count is never negative and adds up with the completed count to the total (the same expression is at line 162) |
| ProgressPage.TotalsOfRows | frontend/src/pages/Progress.jsx:27-29 | the three folds over rows carrying given counts sum those counts |
| ProgressPage.OverviewMatchesServer | frontend/src/pages/Progress.jsx:27-30 | on the rows GET /progress serves, the page's totals are the counts of the whole topics table and its overall figure is the dashboard's overall_progress (see also backend/handlers/dashboard_handler.go:72-174) |
| ProgressPage.ServedCounts | backend/handlers/dashboard_handler.go:159-171 | each served row carries its subject's group counts, and those are consistent |
| QueryBuilder.AppendedSnoc | backend/handlers/topic_handler.go:86-100 | one more supplied column appends its assignment, with the next placeholder number, and a ", " |
| QueryBuilder.BuildStep | backend/handlers/topic_handler.go:87 | the text after one more `query += column = $k, ` is the head followed by the assignments so far |
| QueryBuilder.AddAssignment | backend/handlers/topic_handler.go:86-90 | one `if` of the builder appends the assignment to the text, the value to the arguments, and increments argIndex, keeping argIndex = columns + 1 |
| QueryBuilder.Head | backend/handlers/topic_handler.go:82 | the builder starts from "UPDATE <table> SET ", 12 characters longer than the table name |
| QueryBuilder.BuildFinish | backend/handlers/topic_handler.go:103-104 | the built text has at least two characters, and cutting two and appending the WHERE clause gives the finished statement |
| QueryBuilder.FinishUpdate | backend/handlers/topic_handler.go:103-105 | the builder's tail produces the statement with the columns' arguments followed by the id |
| QueryBuilder.ApplyOne | backend/handlers/study_plan_handler.go:122-136 | proof helper: a SET list of one assignment is that one step of the table |
| QueryBuilder.ApplyPrefix | backend/handlers/study_plan_handler.go:122-136 | a SET list is applied left to right: a leading assignment can be split off and the rest applies to its result; shared by both tables' updates (see also backend/handlers/topic_handler.go:86-100) |
| QueryBuilder.CutSuffix | backend/handlers/topic_handler.go:103 | proof helper for FinishShape: removing what was appended last gives back the text before it |
| QueryBuilder.AppendedSetList | backend/handlers/topic_handler.go:86-103 | with at least one column, the appended text is the SET list followed by one trailing ", " |
| QueryBuilder.UpdateTextShape | backend/handlers/topic_handler.go:82-105 | with at least one column the statement is well formed: placeholders $1..$k, no trailing comma, and the id as $(k+1) |
| QueryBuilder.FinishShape | backend/handlers/topic_handler.go:103 | the cut removes exactly the trailing ", " after the SET list |
| QueryBuilder.EmptyUpdateText | backend/handlers/topic_handler.go:82-104 | with no column the cut eats the end of the keyword SET: the statement is "UPDATE <table> SE WHERE id = $1" |
| Seqs.Filter | backend/handlers/topic_handler.go:22 | a WHERE clause or Array.filter keeps exactly the elements that pass, in order, and never more than the input |
| Seqs.Sort | backend/handlers/note_handler.go:18 | an ORDER BY result is a permutation of its input and is sorted by the ordering |
| Seqs.SortedFirst | backend/handlers/note_handler.go:18 | an element that strictly precedes every other one comes first in sorted order |
| Seqs.UpdateWhere | backend/handlers/topic_handler.go:130-131 | `UPDATE ... WHERE id = $n` replaces exactly the rows with that key and keeps the others in place |
| Seqs.Find | frontend/src/pages/Notes.jsx:84 | the lookup finds something exactly when the key occurs, and then an element with that key |
| Seqs.FindFirst | frontend/src/pages/Notes.jsx:84 | the lookup returns the first element with the key |
| Text.StrLessTrichotomy | frontend/src/pages/StudyPlan.jsx:77-79 | of `a < b`, `a === b` and `b < a` on strings, exactly one holds |
| Text.StrLessTransitive | frontend/src/pages/StudyPlan.jsx:77-79 | string order is transitive |
| Text.NatToDecimal | backend/handlers/topic_handler.go:87 | strconv.Itoa of a natural number is a shortest digit string: non-empty, all digits, no leading zero |
| Text.DecimalValue | backend/handlers/topic_handler.go:87 | the decimal numeral of n has value n |
| Text.Atoi | backend/handlers/topic_handler.go:69-73 | strconv.Atoi accepts only an optional sign and digits and only values that fit in an int64 |
| Text.AtoiItoa | backend/handlers/topic_handler.go:69 | Atoi reads back the numeral Itoa writes, for every int64 (Itoa writes the placeholders, as at line 87) |
| Text.AtoiExamples | backend/handlers/topic_handler.go:69-73 | the empty string, a lone sign, letters, a decimal point and a leading space are refused; "007", "+12" and "-3" are accepted |
| Text.TrimStartEmpty | frontend/src/pages/Topics.jsx:33 | trimming the start leaves nothing exactly when everything is white space, and otherwise starts with a non-space |
| Text.TrimEndKeepsFirst | frontend/src/pages/Topics.jsx:33 | trimming the end keeps a non-space first character |
| Text.TrimEmpty | frontend/src/pages/Topics.jsx:33 | trim() gives "" exactly when the string is white space only, the empty string included |
| StudyPlanHandler.Joined | backend/handlers/study_plan_handler.go:17-19 | the inner join has one row per plan row whose subject exists |
| StudyPlanHandler.JoinedRow | backend/handlers/study_plan_handler.go:17-19 | each joined row is a plan row with the name and colour of its own subject |
| StudyPlanHandler.JoinedAll | backend/handlers/study_plan_handler.go:17-19 | under the foreign key the join keeps every plan row, in order, each with its own subject's name and colour (see also backend/database/connection.go:77) |
| StudyPlanHandler.LaterFirstPreorder | backend/handlers/study_plan_handler.go:20 | latest-date-first is a total preorder |
| StudyPlanHandler.AllPlans | backend/handlers/study_plan_handler.go:16-21 | GET /study-plan serves the joined rows, each as often as joined, with no date earlier than one after it |
| StudyPlanHandler.AllPlansRows | backend/handlers/study_plan_handler.go:16-21 | every served row is a plan row with its subject's values |
| StudyPlanHandler.AllPlansLatestFirst | backend/handlers/study_plan_handler.go:20-37 | the served dates are valid calendar dates, and none is earlier than a date served after it |
| StudyPlanHandler.StoredDateServed | backend/handlers/study_plan_handler.go:37 | a served study_date is a stored DATE in YYYY-MM-DD form (see also backend/database/connection.go:78) |
| StudyPlanHandler.GetAllStudyPlans | backend/handlers/study_plan_handler.go:15-42 | the row loop serves exactly the ordered join |
| StudyPlanHandler.TodayPlansMeaning | backend/handlers/study_plan_handler.go:48-54 | today's list has exactly the plan rows dated today, each with its subject, in ascending id order |
| StudyPlanHandler.GetTodayStudyPlan | backend/handlers/study_plan_handler.go:45-75 | the row loop serves exactly today's list |
| StudyPlanHandler.PlannedHours | backend/handlers/study_plan_handler.go:85-87 | hours of 0, or absent, become 1.0; other values are kept; the result is never 0 |
| StudyPlanHandler.CreateEffect | backend/handlers/study_plan_handler.go:78-101 | with the required fields present, a create succeeds exactly when the subject exists and the date is a date; the new last row has the next id, the planned hours after the default and 0 completed; a failure changes nothing |
| StudyPlanHandler.CreateStudyPlan | backend/handlers/study_plan_handler.go:78-101 | the handler's effect and answer are those of Create |
| StudyPlanHandler.Columns | backend/handlers/study_plan_handler.go:122-136 | at most three columns are assigned, and none exactly when no field is supplied |
| StudyPlanHandler.Values | backend/handlers/study_plan_handler.go:122-136 | one argument per assigned column |
| StudyPlanHandler.PlansPrefix | backend/handlers/study_plan_handler.go:118 | the builder starts from the head of an UPDATE of study_plan |
| StudyPlanHandler.AddPlanned | backend/handlers/study_plan_handler.go:122-126 | hours_planned is assigned, with its value and the next placeholder, exactly when it is supplied |
| StudyPlanHandler.AddCompleted | backend/handlers/study_plan_handler.go:127-131 | hours_completed is assigned exactly when it is supplied |
| StudyPlanHandler.AddNotes | backend/handlers/study_plan_handler.go:132-136 | notes is assigned exactly when it is non-empty |
| StudyPlanHandler.AddAssignments | backend/handlers/study_plan_handler.go:118-136 | the three ifs build the SET list of the supplied columns and their values, keeping argIndex = columns + 1 |
| StudyPlanHandler.BuildUpdate | backend/handlers/study_plan_handler.go:117-146 | no statement exactly when no field is supplied; otherwise the well-formed UPDATE with the columns' values followed by the id |
| StudyPlanHandler.UpdateStudyPlan | backend/handlers/study_plan_handler.go:104-161 | the handler's effect and answer are those of Update |
| StudyPlanHandler.AssignMerges | backend/handlers/study_plan_handler.go:122-148 | running the built assignments on a row gives the merged row |
| StudyPlanHandler.UpdateEffect | backend/handlers/study_plan_handler.go:104-161 | a bad id is a 400; no field is a 400 "No fields to update" whether or not the entry exists; otherwise an id in range succeeds exactly when the entry exists, rewriting it by the merge rule and nothing else, and a missing entry is a 404 |
| StudyPlanHandler.SentEffect | backend/handlers/study_plan_handler.go:144-161 | for an id in range, a sent statement succeeds exactly when the entry exists and then rewrites that entry alone by the merge rule; otherwise it is a 404 "Study plan not found" with nothing changed |
| StudyPlanHandler.RunUpdate | backend/handlers/study_plan_handler.go:144-158 | the statement rewrites the row with that id and affects one row, or affects none |
| StudyPlanHandler.SetPlanRows | backend/handlers/study_plan_handler.go:148 | rewriting the row with the id by the merge rule touches that row only |
| StudyPlanHandler.UpdateWellFormed | backend/handlers/study_plan_handler.go:138-146 | every statement the handler sends is well formed: SET list, no trailing comma, id placeholder last |
| StudyPlanHandler.DeleteEffect | backend/handlers/study_plan_handler.go:164-184 | with an integer id, the delete succeeds exactly when the entry exists, and otherwise answers 404; a success removes that entry alone |
| StudyPlanHandler.DeleteStudyPlan | backend/handlers/study_plan_handler.go:164-184 | the handler's effect and answer are those of Delete |
| SubjectHandler.AllSubjects | backend/handlers/subject_handler.go:15-44 | every subject is listed, in table order, with its own topic counts and their progress |
| SubjectHandler.AllSubjectsProgress | backend/handlers/subject_handler.go:40-42 | each listed progress lies in [0, 100]: 0 without topics and 100 when all are completed |
| SubjectHandler.AllSubjectsOrder | backend/handlers/subject_handler.go:22-23 | every subject is listed once, in ascending id order, and only subjects are listed |
| SubjectHandler.AllSubjectsAscending | backend/handlers/subject_handler.go:23 | the listed ids ascend |
| SubjectHandler.AllSubjectsCover | backend/handlers/subject_handler.go:20-22 | a subject is stored exactly when it is listed |
| SubjectHandler.SubjectWithoutTopics | backend/handlers/subject_handler.go:17-21 | a subject without topics is listed with zero counts and progress 0 |
| SubjectHandler.GetAllSubjects | backend/handlers/subject_handler.go:14-47 | the row loop serves exactly the listing |
| SubjectHandler.AllSubjectsAt | backend/handlers/subject_handler.go:32-44 | the i-th listed item is built from the i-th subject and its counts |
| SubjectHandler.ListedItem | backend/handlers/subject_handler.go:33-43 | one pass of the loop: the progress stays 0 unless the subject has topics |
| SubjectHandler.GetSubject | backend/handlers/subject_handler.go:50-80 | a non-numeric id is a 400; otherwise the subject is served exactly when the id is in the INTEGER range and exists, with its own counts, and every failure is a 404 |
| SubjectHandler.GetSubjectListed | backend/handlers/subject_handler.go:14-80 | reading one subject gives the same item as the listing |
| SubjectHandler.CreateEffect | backend/handlers/subject_handler.go:83-106 | a malformed body or an empty name is a 400; a created subject is appended with the next id and the given description, its colour defaulting to "#3498db"; a failure changes nothing |
| SubjectHandler.CreateStoresInput | backend/handlers/subject_handler.go:90-98 | a name and colour within their limits are stored exactly as sent |
| SubjectHandler.CreateSubject | backend/handlers/subject_handler.go:83-106 | the handler's effect and answer are those of Create |
| SubjectHandler.UpdateEffect | backend/handlers/subject_handler.go:109-139 | a bad id is a 400 and a missing subject a 404; a success rewrites only the subject with that id, by the COALESCE(NULLIF) merge rule; a failure changes nothing |
| SubjectHandler.UpdateMerges | backend/handlers/subject_handler.go:122-125 | values within their limits are merged exactly: an empty field keeps the stored value and a non-empty one replaces it |
| SubjectHandler.UpdateSubject | backend/handlers/subject_handler.go:109-139 | the handler's effect and answer are those of Update |
| SubjectHandler.DeleteEffect | backend/handlers/subject_handler.go:142-162 | with an integer id, the delete succeeds exactly when the subject exists, and that is the cascading delete; otherwise a 404 that changes nothing |
| SubjectHandler.DeleteSubject | backend/handlers/subject_handler.go:142-162 | the handler's effect and answer are those of Delete |
| TopicHandler.TopicsBySubject | backend/handlers/topic_handler.go:14-43 | a parameter that is not an integer is a 400 "Invalid subject ID"; an int64 id outside INTEGER is a store error; otherwise the served topics are exactly those of that subject |
| TopicHandler.TopicsBySubjectOrder | backend/handlers/topic_handler.go:22 | the topics come in ascending id order, each once, as many as the subject's total count; a subject that does not exist has none |
| TopicHandler.GetTopicsBySubject | backend/handlers/topic_handler.go:14-43 | the handler serves exactly TopicsBySubject |
| TopicHandler.SelectTopics | backend/handlers/topic_handler.go:31-40 | the row loop collects exactly the subject's rows, in table order |
| TopicHandler.CreateEffect | backend/handlers/topic_handler.go:46-65 | with the required fields present, a create succeeds exactly when the subject exists and the name fits; the subject's total goes up by one and its completed and weak counts stay; a failure changes nothing |
| TopicHandler.CreateTopic | backend/handlers/topic_handler.go:46-65 | the handler's effect and answer are those of Create |
| TopicHandler.Columns | backend/handlers/topic_handler.go:86-100 | at most three columns are assigned, and none exactly when the name is empty and both flags are absent |
| TopicHandler.Values | backend/handlers/topic_handler.go:86-100 | one argument per assigned column |
| TopicHandler.TopicsPrefix | backend/handlers/topic_handler.go:82 | the builder starts from the head of an UPDATE of topics |
| TopicHandler.AddName | backend/handlers/topic_handler.go:86-90 | name is assigned, with its value and the next placeholder, exactly when it is non-empty |
| TopicHandler.AddCompleted | backend/handlers/topic_handler.go:91-95 | is_completed is assigned exactly when it is present |
| TopicHandler.AddWeak | backend/handlers/topic_handler.go:96-100 | is_weak is assigned exactly when it is present |
| TopicHandler.AddAssignments | backend/handlers/topic_handler.go:82-100 | the three ifs build the SET list of the supplied columns and their values, keeping argIndex = columns + 1 |
| TopicHandler.BuildUpdate | backend/handlers/topic_handler.go:81-105 | the statement is the cut SET list followed by the WHERE clause, with the columns' values followed by the id as last argument |
| TopicHandler.UpdateTopic | backend/handlers/topic_handler.go:68-120 | the handler's effect and answer are those of Update |
| TopicHandler.AssignMerges | backend/handlers/topic_handler.go:86-107 | running the built assignments on a row gives the merged row |
| TopicHandler.NameStep | backend/handlers/topic_handler.go:86-90 | the name assignment, when there is one, sets the name |
| TopicHandler.CompletedStep | backend/handlers/topic_handler.go:91-95 | the is_completed assignment, when there is one, sets the flag |
| TopicHandler.WeakStep | backend/handlers/topic_handler.go:96-100 | the is_weak assignment, when there is one, sets the flag |
| TopicHandler.UpdateEffect | backend/handlers/topic_handler.go:68-120 | with at least one field, a success rewrites only the topic with that id by the merge rule, and a missing topic is a 404; no other row or table changes; a failure changes nothing |
| TopicHandler.RunUpdate | backend/handlers/topic_handler.go:107-117 | for a missing topic no row is affected; a statement that affects a row rewrites the topic with that id as Rewritten describes |
| TopicHandler.RunFound | backend/handlers/topic_handler.go:107 | with the topic present the store errs or rewrites one row; a name that fits leaves no error and the row becomes the merge |
| TopicHandler.RunShape | backend/handlers/topic_handler.go:107 | against a table with the row, the statement writes the merge of that row, its name passed through the column limit |
| TopicHandler.SetTopicRewritten | backend/handlers/topic_handler.go:107 | writing back the merge of a row keeps its id and subject and takes its flags from the merge; the row becomes the merge exactly when the name is unchanged by the limit (see also backend/database/connection.go:61) |
| TopicHandler.AssignUnique | backend/database/connection.go:59 | two topics with the same id are the same row |
| TopicHandler.UpdateMerges | backend/handlers/topic_handler.go:86-107 | values that fit are merged exactly: an empty name keeps the stored one, an absent flag keeps its value |
| TopicHandler.UpdateWithoutFields | backend/handlers/topic_handler.go:81-111 | as written, a body with no field yields "UPDATE topics SE WHERE id = $1", which the store rejects: a 500 for every id, existing or not, and nothing changes |
| TopicHandler.UpdateGuardedText | backend/handlers/topic_handler.go:82-105 | with the guard, every statement sent is well formed: placeholders $1..$k and the id as $(k+1) |
| TopicHandler.UpdateGuardedMeaning | backend/handlers/topic_handler.go:68-120 | the guarded handler answers a body without fields with a 400 and otherwise agrees with the handler as written, whose 404 then means exactly that the topic is missing (see also backend/handlers/study_plan_handler.go:138-141) |
| TopicHandler.ToggleEffect | backend/handlers/topic_handler.go:123-170 | with an integer id, a toggle succeeds exactly when the topic exists, else a 404; it flips one flag of that topic and keeps the rest of the row, every other row, every other table and the invariant |
| TopicHandler.ToggleTwice | backend/handlers/topic_handler.go:130-131 | toggling twice restores the table, for either flag (is_weak at lines 155-156) |
| TopicHandler.ToggleTopic | backend/handlers/topic_handler.go:123-170 | the handler's effect and answer are those of the toggle function |
| TopicHandler.DeleteEffect | backend/handlers/topic_handler.go:173-193 | with an integer id, the delete succeeds exactly when the topic exists, else a 404; it removes that topic alone and clears the topic of exactly the notes that pointed at it |
| TopicHandler.DeleteTopic | backend/handlers/topic_handler.go:173-193 | the handler's effect and answer are those of Delete |
| TopicsPage.CompletedCount | frontend/src/pages/Topics.jsx:81 | the completed count is at most the number of topics; 0 exactly when none is completed, and all exactly when every one is |
| TopicsPage.WeakCount | frontend/src/pages/Topics.jsx:82 | the weak count is at most the number of topics, counted apart from completion; 0 exactly when none is weak, and all exactly when every one is |
| TopicsPage.Round | frontend/src/pages/Topics.jsx:120 | Math.round gives the integer within half a unit, halves rounded up |
| TopicsPage.ShownProgress | frontend/src/pages/Topics.jsx:120 | definition: the rounded completed share, 0 with no topics; ShownProgressBounds and ShownProgressEnds state its properties |
| TopicsPage.ShownProgressBounds | frontend/src/pages/Topics.jsx:120 | the shown percentage is a whole number in [0, 100] within a half of the exact share, and 0 with no topics |
| TopicsPage.ShownProgressEnds | frontend/src/pages/Topics.jsx:120 | all topics completed shows 100, and none completed shows 0 |
| TopicsPage.PageCountsMatchServer | frontend/src/pages/Topics.jsx:81-82 | on the list the backend serves for a subject, the page's counts equal the subject's counts in the subject listing (see also backend/handlers/topic_handler.go:22) |
| TopicsPage.CreateRequest | frontend/src/pages/Topics.jsx:33-36 | no request exactly when the name is white space only; otherwise the untrimmed name is sent with the page's subject id, and it passes the backend's required check |
| TopicsPage.GuardStricterThanServer | frontend/src/pages/Topics.jsx:33 | a name of blanks passes the backend's required check but is never sent (see also backend/handlers/topic_handler.go:48) |
| TopicsPage.SubmitCreate | frontend/src/pages/Topics.jsx:31-41 | definition: handleCreateTopic as the request sent, if any, and the name field afterwards; SubmitClearsOnlyOnSuccess states its properties |
| TopicsPage.SubmitClearsOnlyOnSuccess | frontend/src/pages/Topics.jsx:35-41 | the name field is cleared when a request was sent and succeeded; a refused or failed create leaves what was typed |
| StudyPlanPage.Buckets | frontend/src/pages/StudyPlan.jsx:77-79 | definition: today's, upcoming and past plans as three filters; BucketOfPlan, BucketsPartition and BucketsKeepOrder state its properties |
| StudyPlanPage.BucketOfPlan | frontend/src/pages/StudyPlan.jsx:77-79 | every plan falls in exactly one of today, upcoming and past |
| StudyPlanPage.BucketsPartition | frontend/src/pages/StudyPlan.jsx:77-79 | the three buckets are pairwise disjoint and together hold every plan as often as the list does, so the header count at line 158 is the sum of the bucket sizes |
| StudyPlanPage.BucketsKeepOrder | frontend/src/pages/StudyPlan.jsx:77-79 | each bucket keeps the relative order of the plans |
| StudyPlanPage.ServedBucketsLatestFirst | frontend/src/pages/StudyPlan.jsx:78-79 | on the list the backend serves, past and upcoming sessions are most recent first (see also backend/handlers/study_plan_handler.go:20) |
| StudyPlanPage.ShownPast | frontend/src/pages/StudyPlan.jsx:193 | exactly the first min(5, n) past plans are shown |
| StudyPlanPage.ShownOrCounted | frontend/src/pages/StudyPlan.jsx:193-197 | the "N more" line appears exactly when there are more than five past sessions; each past session is shown or counted, never both |
| StudyPlanPage.CompletionWidthBounds | frontend/src/pages/StudyPlan.jsx:133 | no division by zero: 0 or negative planned hours give an empty bar; with 0 <= completed <= planned the width is within [0, 100], and 100 exactly when all hours are done |

## Left out

- Server startup, `.env` loading, CORS and the route table: backend/main.go and backend/routes/routes.go are not part of this model. The handlers are modelled as the route table would call them.
- `Connect`, `Close` and running the DDL of `InitTables`: connection I/O. Only the schema's defaults, column widths, foreign keys and cascade rules are kept, as the invariant `Database.Consistent` and the insert and delete transitions.
- The SQL engine, the driver and gin's JSON binding: foreign libraries.
  - Tables are sequences of rows in ascending id order.
  - A statement is modelled by its effect.
  - Binding failure is `Body.Malformed` or a missing `binding:"required"` field.
- The JSON error envelope: utils (`SuccessResponse`, `ErrorResponse`) is not part of this model. A failure is modelled by its kind, its HTTP status and, where the handler writes it, its fixed message.
- The text of database errors (`err.Error()`): driver output. They are modelled as `Failure.Internal`.
- `DECIMAL(3,1)`: the hour columns' rounding to one decimal, and their rejection of values of 100 or more, are not modelled. Hours are stored as the exact `real` received.
- Store faults other than constraint violations: for `GetDashboard`, `GetProgress` and `SeedSubjects` the model lets a whole `Query`, `QueryRow` or `Exec` call fail, since the source handles those errors differently. Elsewhere a statement fails only for a reason the schema gives: foreign key, column width, an out-of-range integer, an invalid date or malformed SQL.
- `DashboardHandler.Dashboard`: a failure while the rows are being read is not modelled. No handler calls `rows.Err()` after its `for rows.Next()` loop, so a connection lost during the loop serves the rows read so far with a 200. `GetDashboard` also ignores the error `Scan` returns and appends the item anyway, with the fields not yet scanned left at zero. In the model every row of a query that succeeds is read and scanned.
- `DashboardHandler.ProgressReport`: a `Scan` error in `GetProgress`'s loop, which answers 500, is folded into the one query-failure flag. A connection lost during the loop is not modelled: `rows.Err()` is never checked, so the rows read so far are served with a 200.
- `SERIAL` gaps: a failed insert does not consume a sequence value in the model, while Postgres may skip one. No contract depends on the exact next id.
- `created_at` columns: never read by the modelled code.
- `study_date`: only the ISO `YYYY-MM-DD` spelling is accepted. The other date spellings Postgres accepts are refused.
- String order: strings are compared as sequences of characters. JavaScript compares UTF-16 code units and Go compares bytes. These agree on the ASCII dates and names the model's order lemmas are about.
- Time zones, `time.Now` and `toISOString`: today's date and the current instant are parameters. The frontend's UTC date versus the backend's local date is not modelled.
- `DashboardHandler.Clock`: `time.Local` is one fixed offset from UTC. A zone whose offset changes between now and the exam date (daylight saving) is not modelled.
- `time.Duration` saturation: instants are unbounded seconds. Go clamps a difference beyond about 292 years.
- Floating point: percentages, hours and `Math.round` are exact `real`s. `TopicsPage.Round` rounds halves up, as `Math.round` does for the non-negative values the page passes to it. Binary rounding error is not modelled.
- JSON `null` versus `[]`: a Go listing with no rows encodes a nil slice as `null`. The model returns the empty sequence.
- Row order that SQL leaves unspecified is modelled as table order:
  - the dashboard's today query has no `ORDER BY`;
  - rows tied under `ORDER BY study_date DESC` or `updated_at DESC`.

  The lemmas claim only the order the SQL promises.
- `parseInt` on the Notes form's subject field: the select offers `''` and the listed subject ids, and its `required` check blocks a submit with `''`, so `Submit` only sends forms that carry an id. `RequestFor` still maps no subject (`''`, read as `NaN`) to no id. The select is taken to show the form's own value: an edited note whose subject is missing from the loaded list, which the browser would show as the first option, is not modelled.
- `TopicsPage.CreateRequest`: takes the subject id as an integer. `parseInt` of a non-numeric route parameter gives `NaN`, which is sent as null and refused by the backend's required `subject_id`; that path is not modelled.
- `Database.SeedSubjects`: the lemmas about seeding are stated over any list of seeds that fit the columns. The five seed rows are instances of that list.
- React state updates, `useEffect` loading, `Promise.all`, `window.confirm`, `fetch` and the loading and error display: asynchronous UI plumbing. The pages' derived values and the Notes modal's state transitions are modelled. Whether the server accepts a request is a `succeeds` parameter.
- frontend/src/App.jsx, frontend/src/pages/Dashboard.jsx and frontend/src/pages/Subjects.jsx are not part of this model. They route and render server values unchanged.
- `StudyPlanPage.MoreCount` and `StudyPlanPage.CompletionWidth` state nothing in their own contracts. Their properties are the lemmas `StudyPlanPage.ShownOrCounted` and `StudyPlanPage.CompletionWidthBounds`.
- `NotesPage.NoteModal`: its methods change the modal's fields. Their contracts state the whole new state through `old`.

## Findings

| source | as written | input that shows it | evidently intended | confidence | as-written member | corrected member |
|---|---|---|---|---|---|---|
| backend/handlers/topic_handler.go:82-105 | `UpdateTopic` has no empty-update guard. With no field supplied, cutting the last two characters turns `UPDATE topics SET ` into `UPDATE topics SE WHERE id = $1`. The store rejects that statement, so the answer is a 500, whether or not the topic exists. | `PUT /topics/1` with body `{}` | answer 400 "No fields to update" with the store unchanged, as `UpdateStudyPlan` does at backend/handlers/study_plan_handler.go:138-141 | not executed | TopicHandler.UpdateWithoutFields | TopicHandler.UpdateGuardedMeaning |

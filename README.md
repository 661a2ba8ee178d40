# School back end (mb_back): a verified model of its core logic

This project models, in Dafny, the parts of the school's FastAPI back end that
compute or change state, and proves what those parts promise. The database
reads are inputs: sequences of rows in the order a query returns them, or
maps keyed by primary key. The writes are methods on small classes that hold
the tables they change.

- **Roster synchronisation**: `ExternalFeed`, `StudentSync`, `TeacherSync` and `BaseSync`.
  - The staff feed and the legacy pupils table become feed items.
  - The student and teacher hooks decide e-mails and role-specific fields.
  - `BaseSync.Roster` runs a sync. Known users are updated and restored, new users are inserted, one error is recorded per failing item, and role holders missing from the feed are archived.
- **Record book**: `MarkBook`. A pupil's summed rows become one mark per event, with stage marks, a total and a pass/fail status.
- **Project office**: `ProjectOffice`.
  - The journal of one event, sorted by class and name.
  - The pivot table of all the office's events, with their statuses.
  - The replacement of the office's set of events.
  - The importance flag of one office event, inserted or updated.
- **Class journal**: `Dailary`. Every pupil of a class is scored against every stage of an event. A `Gradebook` upserts and deletes achievements, keyed by (pupil, event, stage).
- **Event page**: `Events`. Counts per stage, the distinct pupils, and how many pupils of grades 10 and 11 took part.
- **Accounts**:
  - `Registration` covers registering, e-mail verification with its 24-hour expiry, and resending.
  - `Auth` covers the login and refresh check ladders, password generation and the once-a-day password reset.
  - `Dependencies` covers the request guards.
- **Event-type catalogue**: `EventTypes`. Create, update, delete and list by leader, keeping titles unique.
- **Classes and user flags**: `Groups` and `UserFlags`.
  - The classes a class teacher leads, and a class page with its grade and letter parsed from the class name.
  - The capability flags of the signed-in user.
- **Shared modules**: `Wrappers` (Option, Result), `Text` (Python string operations), `Sorting` (a stable sort), `Grouping` (the one-pass group-by-key loop the report routes use), `Users` (the users row and the clock), `Http` (status and detail), and `SyncSchemas` (the sync records).

The route members follow the code as written. Where the code evidently
does something its authors did not intend, a corrected definition with
its property proved sits beside the as-written one, and "## Findings"
names both.

**How the model is built**
- Every loop of the source is a method. Its contract ties the result to a declarative function of the input, and lemmas state what that function means.
- The clock (`now`, seconds since the epoch, UTC), random draws, password hashing and checking, and JWT decoding are parameters.
- A ValueError that a route passes on is a `Failure` with the route's message. An exception that FastAPI answers with a bare 500 is a `Failure` with status 500.
- Where the ORM would fail on a foreign key, the service answers with a database error. Examples: a type deleted while it still has stages, or a link to a missing event. The model gives a failure with nothing changed.

## Model

| member | source | states |
|---|---|---|
| ExternalFeed.CleanGroupsClean | app/services/sync_service/external_services.py:37 | the kept pieces are non-empty and stripped, and carry no comma when the parts had none |
| ExternalFeed.LeaderGroups | app/services/sync_service/external_services.py:34-37 | a list exactly when `classStr` is present and not blank; every class in it is non-empty, stripped and comma-free |
| ExternalFeed.CleanGroupsKeepsClean | app/services/sync_service/external_services.py:37 | cleaning a list that is already clean leaves it as it is |
| ExternalFeed.LeaderGroupsRoundTrip | app/services/sync_service/external_services.py:34-37 | reading back a list of clean classes written as "a,b,c" gives the same list |
| ExternalFeed.MapTeacher | app/services/sync_service/external_services.py:28-54 | skipped iff the id is missing or 0 or the e-mail is excluded; fails iff the name is null; otherwise uid is str(Id), the e-mail and classes are the row's, the name defaults to "Unknown Teacher", and the photo URL is the prefix followed by the row's image, present iff the image is |
| ExternalFeed.PupilDisplayName | app/services/sync_service/external_services.py:84-90 | never empty: the stripped "last first patronymic", or "Ученик <personid>" when that is blank |
| ExternalFeed.DisplayNameWords | app/services/sync_service/external_services.py:87 | with one-word name parts the display name splits on spaces into last name, first name and patronymic |
| ExternalFeed.MapStudent | app/services/sync_service/external_services.py:79-104 | skipped iff personid is missing or 0; fails iff a name part is NULL; otherwise uid, e-mail, class, stripped name parts and display name come from the row |
| ExternalFeed.Collect | app/services/sync_service/external_services.py:27-54 | every collected item comes from some row that was kept, and every kept row's item is collected |
| ExternalFeed.CollectSnoc | app/services/sync_service/external_services.py:78-104 | one more row extends the collected list by that row's item when it is kept, and by nothing otherwise |
| ExternalFeed.CollectRows | app/services/sync_service/external_services.py:78-104 | the loop's list is the kept items of the rows, in row order |
| ExternalFeed.GetTeachers | app/services/sync_service/external_services.py:16-59 | a failed request gives no teachers; otherwise the kept staff rows in feed order |
| ExternalFeed.GetStudents | app/services/sync_service/external_services.py:62-116 | a failed connection or query gives no pupils; otherwise the kept rows in row order |
| BaseSync.Roster.SyncStudents | app/services/sync_service/student_sync_service.py:16-20 | the sync of the fetched pupils under the "student" role |
| BaseSync.Roster.SyncTeachers | app/services/sync_service/teacher_sync_service.py:14-18 | the sync of the fetched staff under the "teacher" role |
| StudentSync.CleanName | app/services/sync_service/student_sync_service.py:42-46 | the name (empty when absent) stripped, lower-cased and filtered by `Text.KeepAlnum`: every alphanumeric character kept in order and no other; no upper-case letter and no dot remain |
| StudentSync.Prefix | app/services/sync_service/student_sync_service.py:55 | `uid[:8]`: a prefix of the uid, eight characters long when the uid has eight |
| StudentSync.GenerateEmail | app/services/sync_service/student_sync_service.py:40-57 | a generated address ends with the school's domain and has a non-empty local part |
| StudentSync.GeneratedLocalPart | app/services/sync_service/student_sync_service.py:48-55 | the local part splits back at the dot into both cleaned names, or is the one name present, or is exactly "student." followed by `uid[:8]` |
| StudentSync.ExternalEmail | app/services/sync_service/student_sync_service.py:27-38 | never empty; a usable database e-mail is taken stripped and lower-cased, otherwise the address is exactly `GenerateEmail`'s, at the school's domain |
| StudentSync.ShouldUpdateEmail | app/services/sync_service/student_sync_service.py:22-25 | due exactly when the feed's address differs from the stored one |
| StudentSync.UpdateSpecific | app/services/sync_service/student_sync_service.py:59-68 | only the class changes; a non-empty class from the feed is taken over, an empty one changes nothing; the flag is set iff the row differs |
| StudentSync.SpecificFields | app/services/sync_service/student_sync_service.py:70-75 | a new pupil gets the feed's class and the temporary password's hash, nothing else |
| TeacherSync.ShouldUpdateEmail | app/services/sync_service/teacher_sync_service.py:20-23 | always due: a teacher's e-mail is rewritten from the feed on every update |
| TeacherSync.ItemEmail | app/services/sync_service/teacher_sync_service.py:25-29 | succeeds iff the feed has a non-empty e-mail, with that e-mail; otherwise fails with the "no e-mail" message |
| TeacherSync.UpdateSpecific | app/services/sync_service/teacher_sync_service.py:31-45 | photo and led classes become the feed's; the flag is set iff the row differs |
| TeacherSync.SpecificFields | app/services/sync_service/teacher_sync_service.py:47-52 | a new teacher gets the feed's photo and led classes, nothing else |
| BaseSync.ItemEmail | app/services/sync_service/base_sync_service.py:159-160 | the hook fails exactly for a teacher item without an e-mail; otherwise the address is non-empty |
| BaseSync.SetEmail | app/services/sync_service/base_sync_service.py:73-75 | only the e-mail changes, and it becomes the item's address exactly when the kind's hook says it is due |
| BaseSync.SetDisplayName | app/services/sync_service/base_sync_service.py:78-80 | only the display name changes; a non-empty item name is taken over and an empty one leaves the row alone; the change flag is set iff the row differs |
| BaseSync.GrantRole | app/services/sync_service/base_sync_service.py:86-88 | only the roles change, the row afterwards holds the role and every role it held before; the flag is set iff something was appended |
| BaseSync.Restore | app/services/sync_service/base_sync_service.py:91-93 | the row ends up not archived, the flag is set iff it was archived |
| BaseSync.UpdateKeeps | app/services/sync_service/base_sync_service.py:68-101 | an update writes only the e-mail, display name, roles, archive flag, updated_at and the kind's columns; password hash, activation, verification, login and creation fields stay; roles only gain the role; a pupil's class becomes the feed's when it has one, photo and led classes stay; a teacher's photo and led classes become the feed's, the class stays |
| BaseSync.UpdateItem | app/services/sync_service/base_sync_service.py:68-101 | fails iff a teacher item has no e-mail; otherwise the row keeps its id and external id, holds the role, is not archived, is stamped with the clock when changed and is untouched when not (the columns it writes in `UpdateKeeps`) |
| BaseSync.UpdateChangedWhenDiffers | app/services/sync_service/base_sync_service.py:68-101 | for a pupil the update reports a change exactly when the row differs (updated_at aside); for a teacher it always reports one, the e-mail being rewritten every time |
| BaseSync.UpdateCopiesItem | app/services/sync_service/base_sync_service.py:72-80 | after an update the row has the item's e-mail, and the item's display name when it has one, else the old one |
| BaseSync.StudentUpdateIdempotent | app/services/sync_service/base_sync_service.py:68-101 | updating a pupil twice with the same feed record: the second update succeeds and changes nothing |
| BaseSync.NewUser | app/services/sync_service/base_sync_service.py:103-123 | fails iff there is no e-mail; otherwise a new row with the item's external id, e-mail and name, only the synced role, created and updated now, not archived, with the column defaults and the kind's own fields |
| BaseSync.Step | app/services/sync_service/base_sync_service.py:49-66 | one item leaves `total_external` and `archived` as they were (its three outcomes in `StepOutcome`) |
| BaseSync.StepOutcome | app/services/sync_service/base_sync_service.py:49-66 | an item whose e-mail cannot be read adds exactly one error naming it and changes neither the rows nor the next id; otherwise a known uid's row becomes the update's, counted as updated exactly when the update reports a change; a new uid gets the new row under the next id, which advances, and counts as added; exactly one of added, updated, errors or "already up to date" applies |
| BaseSync.Unchanged | app/services/sync_service/base_sync_service.py:54-57 | the number of items of a run whose row was found up to date, at most the number of items |
| BaseSync.RunCountsEachItem | app/services/sync_service/base_sync_service.py:29-31 | every item of a run is counted exactly once: the growth of added, updated and errors plus the up-to-date items is the number of items |
| BaseSync.Run | app/services/sync_service/base_sync_service.py:29-31 | the loop leaves `total_external` and `archived` as they were; no items, no change |
| BaseSync.StepCounts | app/services/sync_service/base_sync_service.py:49-66 | one item: rows keep their keys, at most the item's uid is added, the row count grows by exactly the added counter, and at most one counter moves |
| BaseSync.StepCovers | app/services/sync_service/base_sync_service.py:49-66 | one pupil item: afterwards the pupil has a row holding the role and not archived, and every row that held the role unarchived still does |
| BaseSync.RunCounts | app/services/sync_service/base_sync_service.py:19-31 | over the whole loop: no row is deleted, rows stay keyed by external id, the rows inserted equal the `added` count, the counters grow by at most the number of items, and `total_external` is untouched |
| BaseSync.StudentRunCovers | app/services/sync_service/base_sync_service.py:30-31 | after the loop every pupil of the feed has a row that holds the role and is not archived |
| BaseSync.Missing | app/services/sync_service/base_sync_service.py:128-132 | the active holders of the role absent from the feed are rows of the table |
| BaseSync.ArchiveMissingEffect | app/services/sync_service/base_sync_service.py:125-140 | afterwards no holder of the role outside the feed is active, rows of the feed and rows without the role are unchanged, and the archived count is the number of newly archived rows |
| BaseSync.ArchiveOneMore | app/services/sync_service/base_sync_service.py:134-136 | archiving one more row changes only that row, setting archived and updated_at |
| BaseSync.ArchiveRows | app/services/sync_service/base_sync_service.py:134-140 | the loop archives exactly the selected rows, stamping them now, and returns their number |
| BaseSync.Roster.constructor | app/services/sync_service/base_sync_service.py:14-15 | the session starts over the given table, roles and id counter |
| BaseSync.Roster.ProcessSingleItem | app/services/sync_service/base_sync_service.py:49-66 | the table, the id counter and the counters after one item are those of `Step` |
| BaseSync.Roster.ArchiveMissing | app/services/sync_service/base_sync_service.py:125-140 | the table afterwards is the old one with exactly the missing role holders archived, and the result is their number |
| BaseSync.Roster.Sync | app/services/sync_service/base_sync_service.py:17-43 | with the role missing: one error and no change; otherwise the item loop followed by the archiving, with `total_external` the feed's length |
| BaseSync.SyncOutcome | app/services/sync_service/base_sync_service.py:17-43 | the outcome of a run: with the role missing one error and no change; otherwise the item loop's table and counters, then the missing role holders archived and counted |
| MarkBook.LastResultTitle | app/routes/mark_book.py:116 | a title exactly when the aggregated titles are non-empty; it is the last ", "-separated piece: a suffix of the titles, free of the separator, and either all of them or preceded by ", " |
| MarkBook.StageOf | app/routes/mark_book.py:110-120 | the stage mark passes iff the summed score reaches the minimum (NULL read as 0); name, date, score, current score, minimum and result title come from the row |
| MarkBook.EventIds | app/routes/mark_book.py:99-108 | the events of the rows, each once (the keys of `events_data`, in insertion order) |
| MarkBook.FirstRow | app/routes/mark_book.py:99-100 | the position of the event's first row: that row has the event's id and no earlier row has it |
| MarkBook.EventIdsOrder | app/routes/mark_book.py:99-108 | the ids come in order of first appearance: an earlier id's first row precedes a later id's |
| MarkBook.RowsOf | app/routes/mark_book.py:99-100 | the rows of one event; non-empty iff some row belongs to it |
| MarkBook.Stages | app/routes/mark_book.py:122 | one stage mark per row of the event |
| MarkBook.MarkOf | app/routes/mark_book.py:127-148 | the event passes iff enough stages passed and there is at least one; id, title, stages, total score, completed count and required minimum (NULL read as 0) are those of the event's rows; the date is the start date, else the end date, else the time of the request |
| MarkBook.Marks | app/routes/mark_book.py:99-148 | one mark per distinct event in order of first appearance, each built from that event's first row and all its rows |
| MarkBook.MarksShape | app/routes/mark_book.py:83-84 | no rows give no marks; every mark has a stage, so its status is "enough stages passed" |
| MarkBook.AbsorbGrouped | app/routes/mark_book.py:99-125 | one row folded into the dictionary keeps it equal to the grouping of the rows seen so far |
| MarkBook.FinishMark | app/routes/mark_book.py:129-148 | after the loop, the k-th key's gathered value gives the k-th mark |
| MarkBook.GatherRows | app/routes/mark_book.py:99-125 | the row loop ends with every event's first row, stage marks, total and passed count gathered, ids in first-appearance order |
| MarkBook.EmitMarks | app/routes/mark_book.py:129-148 | the second loop yields exactly the declarative marks |
| MarkBook.RecordBook | app/routes/mark_book.py:81-150 | the loops return exactly `Marks` of the rows |
| ProjectOffice.PupilName | app/routes/project_office.py:172 | the display name when it is non-empty, else "Ученик <id>"; never empty |
| ProjectOffice.LastScored | app/routes/project_office.py:197-200 | the last row of a stage with a positive score, or none when no row has one |
| ProjectOffice.StageFold | app/routes/project_office.py:187-208 | a stage's rows give its name, id and minimum (NULL read as 0) from its first row, a score that is the largest positive row score (0 when none), the result title and date of the last row with a positive score, and the possible results of all its rows |
| ProjectOffice.StudentFold | app/routes/project_office.py:163-208 | a pupil's entry keeps the pupil's first row and groups the pupil's rows by stage |
| ProjectOffice.StageResultOf | app/routes/project_office.py:218-247 | a stage passes iff its score reaches its minimum; the `score` field carries the minimum, as the route writes it |
| ProjectOffice.EntryOf | app/routes/project_office.py:249-262 | id, name (with the "Ученик <id>" fallback), class, class teacher (None when blank), date (start or now) and minimum (NULL read as 0) from the first row; total and passed count from the stage results |
| ProjectOffice.StageResults | app/routes/project_office.py:218-247 | one stage result per distinct stage of the pupil's rows |
| ProjectOffice.Entries | app/routes/project_office.py:213-262 | one entry per distinct pupil of the rows |
| ProjectOffice.EntriesAt | app/routes/project_office.py:213-262 | the k-th entry is built from the k-th pupil's rows |
| ProjectOffice.ByGroupThenNameOrders | app/routes/project_office.py:265 | the (group_name, student_name) key orders entries totally |
| ProjectOffice.JournalSorted | app/routes/project_office.py:265 | the journal is sorted by class and then name, is a permutation of the entries, has one entry per pupil, and names only pupils of the rows |
| ProjectOffice.Journal | app/routes/project_office.py:265 | one journal entry per gathered entry (order and content in `JournalSorted`) |
| ProjectOffice.StagesOf | app/routes/project_office.py:218 | one stage result per gathered stage |
| ProjectOffice.FinishStudent | app/routes/project_office.py:213-262 | the second loop for one pupil gives the entry of the gathered stages, with their total and passed count |
| ProjectOffice.StagesOfGrouped | app/routes/project_office.py:188-194 | grouped stages give the declarative stage results |
| ProjectOffice.FinishMatches | app/routes/project_office.py:213-262 | the gathered entry of the k-th pupil is the k-th declarative entry |
| ProjectOffice.FinishAll | app/routes/project_office.py:211-262 | the second loop yields exactly the declarative entries |
| ProjectOffice.GetJournal | app/routes/project_office.py:115-267 | no rows: 404 saying the event is missing, else the office is missing, else there is no data; otherwise the sorted journal |
| ProjectOffice.PivotStageOf | app/routes/project_office.py:459-469 | the stage's points (NULL read as 0), passed iff they reach the minimum (NULL read as 0) |
| ProjectOffice.FirstPerTitle | app/routes/project_office.py:462-469 | one stage per distinct stage title, named by it, in first-appearance order |
| ProjectOffice.HasStageKeys | app/routes/project_office.py:463 | the `any(...)` test holds iff an earlier row had that stage title |
| ProjectOffice.FirstPerTitleSnoc | app/routes/project_office.py:462-469 | a row whose title is new adds its stage; any other row adds nothing |
| ProjectOffice.EventFold | app/routes/project_office.py:449-474 | a pupil's rows of one event give one stage per title (its first row), a total and passed count over those stages, the event's title and minimum from its first row, and status "не начато" |
| ProjectOffice.PStudentFold | app/routes/project_office.py:436-474 | a pupil's entry keeps the first row and groups the pupil's rows by event |
| ProjectOffice.PivotAllMeaning | app/routes/project_office.py:434-456 | the first loop groups the rows by pupil; the minimum dict has an entry for every event of the rows, taken from one of that event's rows |
| ProjectOffice.EventMinConsistent | app/routes/project_office.py:456 | when all rows of an event carry the same minimum, the dict holds it |
| ProjectOffice.FinalEvent | app/routes/project_office.py:479-485 | only the status changes: "зачет" iff enough stages passed, else "в процессе" iff there are points, else "не начато" |
| ProjectOffice.PivotEvents | app/routes/project_office.py:477-488 | one event per distinct event of a pupil's rows |
| ProjectOffice.Pivot | app/routes/project_office.py:477-493 | one entry per distinct pupil of the rows |
| ProjectOffice.PivotEventMeaning | app/routes/project_office.py:436-488 | each pupil's event has the stages of the first row per title, their total and passed count, and a status decided by the dict's minimum for that event |
| ProjectOffice.PivotAllSnoc | app/routes/project_office.py:436-474 | one more row is one more step of the first loop |
| ProjectOffice.PivotLoop | app/routes/project_office.py:436-474 | the row loop's state is `PivotAll` of the rows |
| ProjectOffice.EventsOf | app/routes/project_office.py:478-488 | one final event per gathered event |
| ProjectOffice.FinishPivotStudent | app/routes/project_office.py:478-488 | the second loop for one pupil sets each event's final status |
| ProjectOffice.EventsOfGrouped | app/routes/project_office.py:450-456 | the grouped events give the declarative events |
| ProjectOffice.PivotAt | app/routes/project_office.py:477-493 | the k-th pivot entry is built from the k-th pupil's rows and the minimum dict |
| ProjectOffice.PivotFinishMatches | app/routes/project_office.py:477-493 | the gathered entry of the k-th pupil is the k-th pivot entry |
| ProjectOffice.FinishPivot | app/routes/project_office.py:477-493 | the second loop yields exactly `Pivot` of the rows |
| ProjectOffice.GetPivot | app/routes/project_office.py:363-493 | no office: 404; otherwise the pivot table, empty for no rows |
| ProjectOffice.IdsRepr | app/routes/project_office.py:537 | Python's list repr, bracketed |
| ProjectOffice.NotFoundIds | app/routes/project_office.py:533-534 | exactly the requested ids that are not existing events |
| ProjectOffice.Found | app/routes/project_office.py:528-530 | exactly the existing events among the requested ids |
| ProjectOffice.RepeatedIdRefused | app/routes/project_office.py:532 | a request naming an id twice finds fewer events than it names, so it is refused even when every event exists |
| ProjectOffice.DistinctCount | app/routes/project_office.py:532 | a list with a repeated id has fewer distinct ids than entries |
| ProjectOffice.SetSize | app/routes/project_office.py:542 | a list has at most as many distinct ids as entries |
| ProjectOffice.OfficeEvents.constructor | app/routes/project_office.py:508-510 | the association table, the existing events and the leader-to-office lookup start as given |
| ProjectOffice.OfficeEvents.Accessible | app/routes/project_office.py:541 | the events linked to the office |
| ProjectOffice.OfficeEvents.SetEvents | app/routes/project_office.py:499-589 | no office: 404; an empty list unlinks all the office's events; a list naming a missing event (or one twice): 404 with nothing changed; otherwise the office's links become exactly the listed events, new links unimportant, kept links keep their flag, other offices untouched |
| ProjectOffice.OfficeEvents.SetPriority | app/routes/project_office.py:594-658 | no office: 400; an existing link gets the value ("updated"); a missing link is inserted with it ("set"), except that a link to a missing event fails with 500 and changes nothing |
| ProjectOffice.AccessibleAfterSet | app/routes/project_office.py:545-558 | after a successful update the office sees exactly the listed events and every other office sees what it saw before |
| ProjectOffice.DropLinks | app/routes/project_office.py:549-552 | exactly the office's links to the removed events go; every other link stays with its flag |
| ProjectOffice.AddLinks | app/routes/project_office.py:555-558 | the office gains a link to each added event, not marked important; every existing link stays with its flag |
| Dailary.Pupils | app/routes/dailary.py:58-61 | exactly the class's users that are not archived, no more than all users |
| Dailary.ByStageOrderOrders | app/routes/dailary.py:70 | ordering stages by `stage_order` is a total preorder |
| Dailary.PossibleFor | app/routes/dailary.py:93-95 | exactly the results table's rows for the stage |
| Dailary.ResultOf | app/routes/dailary.py:112-113 | the result row with the achievement's result id, or none when no row has it |
| Dailary.CellOf | app/routes/dailary.py:106-144 | "зачет" iff there is an achievement whose result's points reach the stage minimum, else "незачет"; points, title and date from the achievement, or 0, none and none without one; `score` carries the minimum |
| Dailary.CompletedCount | app/routes/dailary.py:118 | at most one passed count per stage |
| Dailary.CountsSnoc | app/routes/dailary.py:118-126 | one more cell adds its points to the total and one to the count iff it passed |
| Dailary.MinStages | app/routes/dailary.py:84 | the type's minimum when it is set and non-zero, else the number of stages |
| Dailary.Cells | app/routes/dailary.py:91-146 | one cell per stage |
| Dailary.Journal | app/routes/dailary.py:72-150 | one journal row per pupil |
| Dailary.JournalRowMeaning | app/routes/dailary.py:68-149 | each row is its pupil's, has one cell per stage in `stage_order` (a sorted permutation of the stages), a total that sums the cell points, a passed count of at most the number of stages, and a minimum that falls back to the number of stages |
| Dailary.PupilCells | app/routes/dailary.py:88-149 | the inner loop builds exactly the declarative cells, with their total and passed count |
| Dailary.ClassJournal | app/routes/dailary.py:52-152 | a missing event: 404; a missing class: 500; a class with no active pupil: 404; otherwise the journal of the class's active pupils |
| Dailary.Gradebook.constructor | app/routes/dailary.py:172-199 | the tables the writes read and the achievement table start as given |
| Dailary.Gradebook.Missing | app/routes/dailary.py:172-190 | none iff pupil, event, stage, result and teacher all exist; otherwise the 404 of the first missing one in that order |
| Dailary.Gradebook.UpdateResult | app/routes/dailary.py:156-223 | on a failed check the 404 and no write; otherwise exactly the (pupil, event, stage) achievement is set to the result, the teacher and the time, a new one also recording the pupil's name and class, an existing one keeping its snapshot |
| Dailary.Gradebook.DeleteResult | app/routes/dailary.py:258-285 | no achievement for the triple: 404 with nothing changed; otherwise exactly that achievement is removed |
| Dailary.CellAfterUpdate | app/routes/dailary.py:110-120 | after a result is set, the cell shows its points and title and passes iff they reach the minimum |
| Dailary.CellAfterDelete | app/routes/dailary.py:121-124 | after a result is removed, the cell is back to 0 points, no title and not passed |
| Events.HighSchoolMembers | app/routes/events.py:44-50 | exactly the users whose class name starts with "10" or "11" are kept |
| Events.HighSchoolPupils | app/routes/events.py:43-50 | the first loop collects exactly the grade 10 and 11 pupils |
| Events.HighSchoolClasses | app/routes/events.py:47 | "10А" and "11-Б" are high-school classes; "1", "9А", "" and no class are not |
| Events.OfStage | app/routes/events.py:91-94 | exactly the event's achievements whose stage id is the stage's |
| Events.Views | app/routes/events.py:106-123 | one view per achievement, keeping its id and stage |
| Events.StatOf | app/routes/events.py:96-131 | `achievement_count` is the number of the stage's achievements, and each listed achievement is of that stage |
| Events.Unsorted | app/routes/events.py:89-131 | one statistic per stage of the type, carrying its `stage_order`: the input of the corrected sort |
| Events.UnsortedAt | app/routes/events.py:89-131 | the j-th statistic belongs to the j-th stage |
| Events.Recorded | app/routes/events.py:89-131 | one statistic per stage of the type, as the loop records them, every `order` being 0 |
| Events.RecordedAt | app/routes/events.py:124-130 | the j-th recorded statistic is the j-th stage's, with order 0 |
| Events.ByOrderOrders | app/routes/events.py:134 | ordering statistics by `order` is a total preorder |
| Events.StatsOrdered | app/routes/events.py:133-134 | the corrected statistics are sorted by `stage_order`, are a permutation of the per-stage statistics, and each counts exactly its stage's achievements |
| Events.Stats | app/routes/events.py:133-134 | the corrected statistics: one per stage (their order and content in `StatsOrdered`) |
| Events.StatsAsWritten | app/routes/events.py:127-134 | the route's statistics: one per stage (their order and content in `AsWrittenKeepsTypeOrder`) |
| Events.SortByAllEqual | app/routes/events.py:134 | the stable sort under a key that is 0 for every element changes nothing |
| Events.AsWrittenKeepsTypeOrder | app/routes/events.py:124-134 | as written, the sort leaves the recorded statistics as they are: in the type's stored stage order, with order 0 and each stage's achievement count |
| Events.AsWrittenIgnoresStageOrder | app/routes/events.py:128 | as written, two stages stored against their `stage_order` stay out of order, while the corrected sort puts them in order |
| Events.HasStageSnoc | app/routes/events.py:89 | a stage id is among the stages iff it is among the first ones or is the last one's |
| Events.Counted | app/routes/events.py:89-97 | exactly the achievements whose stage belongs to the type |
| Events.HitsDistinct | app/routes/events.py:89-97 | with distinct stage ids, an achievement is counted by one stage if its stage belongs to the type and by none otherwise |
| Events.TotalSnoc | app/routes/events.py:97 | one more achievement adds one per stage carrying its stage id |
| Events.TotalIsCounted | app/routes/events.py:89-97 | `total_achievements` is the number of achievements of the type's stages; achievements of other stages are not counted |
| Events.TotalEmpty | app/routes/events.py:81 | no achievements give a total of 0 |
| Events.StudentIdsMeaning | app/routes/events.py:102-155 | the collected pupil ids are exactly the pupils of the counted achievements |
| Events.Participating | app/routes/events.py:139 | exactly the older pupils whose id is among the collected ids |
| Events.ParticipatingHighSchool | app/routes/events.py:137-140 | every participant is a grade 10 or 11 user with a counted achievement; with no older pupils there are no participants |
| Events.AddStudents | app/routes/events.py:102-103 | the inner loop adds exactly the pupils of the stage's achievements |
| Events.StageLoop | app/routes/events.py:89-131 | the stage loop yields the recorded statistics, the total and the pupil ids as declared |
| Events.DetailOf | app/routes/events.py:141-158 | the page keeps the event's id and type; the participating pupils are at most the high-school pupils, who are at most the users |
| Events.DetailMeaning | app/routes/events.py:89-158 | with distinct stage ids: the statistics follow the stored stages with each stage's count, the total is the number of the type's achievements, the pupil count is the number of distinct pupils among them, and the high-school count is that of the grade 10 and 11 users |
| Events.GetEvent | app/routes/events.py:40-158 | an unknown event: 404; otherwise its page as the route builds it, with the statistics in the stored stage order (every sort key being 0), the totals, the pupil count and the high-school counts |
| Registration.First | app/services/registration_service.py:18-20 | `.first()`: the position of the first matching row, or none when no row matches |
| Registration.Registered | app/services/registration_service.py:32-34 | the account gets the password hash, the token and the sending time, and nothing else changes |
| Registration.Verified | app/services/registration_service.py:70-74 | the account becomes active and verified, needs no password, is verified now and loses its token; e-mail, hash and roles stay |
| Registration.Resent | app/services/registration_service.py:101-102 | a new token and sending time; verification state, hash and e-mail stay |
| Registration.ExpiryBoundary | app/services/registration_service.py:65-67 | a token is still good exactly 24 hours after sending and expired one second later; never expired before it was sent |
| Registration.RegisterCheck | app/services/registration_service.py:18-26 | succeeds iff an account with the e-mail exists and still requires a password; no account: "not found in the school's database"; an account with a password: "already exists" |
| Registration.VerifyCheck | app/services/registration_service.py:56-67 | no unverified account with the token: bad token; a missing sending time: 500; expired: "expired"; succeeds iff the first unverified account with the token was sent it within 24 hours |
| Registration.Accounts.constructor | app/services/registration_service.py:8 | the users table starts as given |
| Registration.Accounts.Register | app/services/registration_service.py:11-51 | the checks' answer; on failure nothing changes, on success only the found account is updated as `Registered` |
| Registration.Accounts.VerifyEmail | app/services/registration_service.py:54-85 | the checks' answer; on failure nothing changes, on success only the found account is updated as `Verified` |
| Registration.Accounts.ResendVerification | app/services/registration_service.py:88-113 | no unverified account with the e-mail: the "not found or already verified" error with nothing changed; otherwise that account gets a new token and time, and the answer is whether the mail went out |
| Registration.RegisterThenVerify | app/services/registration_service.py:32-74 | registering and then verifying the fresh token within a day succeeds on the registered account, unless that account was already verified |
| Registration.VerifyOnce | app/services/registration_service.py:56-74 | a token that verified an account cannot verify again |
| Registration.NoSecondRegistration | app/services/registration_service.py:23-96 | a verified account is refused a second registration and is not found for a resend |
| Registration.AsWrittenAssignsTuples | app/services/registration_service.py:32-34 | as written, between the assignments and the refresh each of the three Python attributes holds a one-element tuple instead of its value |
| Registration.AssignsMatchRegistered | app/services/registration_service.py:32-36 | without the trailing commas, the three attributes hold exactly the values `Registered` writes, and so does the committed row |
| Registration.RegisterAssignsAsWritten | app/services/registration_service.py:32-34 | the three assignments as written: each a one-element tuple wrapping the hash, the token and the time |
| Registration.RegisterAssigns | app/services/registration_service.py:32-34 | the three assignments without the commas: plain values |
| Registration.Committed | app/services/registration_service.py:35-36 | after the commit and refresh the row holds a hash, a token and a sending time |
| Registration.AsWrittenCommitsRegistered | app/services/registration_service.py:32-36 | with the driver writing a one-element tuple as its value, the committed row is the one `Registered` describes |
| Auth.CharRange | app/routes/auth.py:240 | n consecutive characters from the first one, exactly those |
| Auth.AlphabetMeaning | app/routes/auth.py:240 | the password alphabet has 70 characters: the ASCII letters, the digits and "!@#$%^&*", and nothing else |
| Auth.GeneratePassword | app/routes/auth.py:238-241 | one character per draw, each from the password alphabet |
| Auth.EveryCharDrawable | app/routes/auth.py:241 | every alphabet character can be drawn |
| Auth.Authenticate | app/services/user_service.py:58-70 | the first user with the e-mail, when it has a hash the password checks against; none otherwise |
| Auth.LoginCheck | app/routes/auth.py:116-133 | bad credentials: 401; registration pending: 401; e-mail not confirmed: 403; account disabled: 403, in that order; succeeds iff none applies |
| Auth.LoginNeedsLifecycle | app/routes/auth.py:116-133 | a successful login's user has a hash, finished registration, and is verified and active |
| Auth.VerifiedCanLogIn | app/routes/auth.py:116-133 | an account just verified whose password checks can log in |
| Auth.Login | app/routes/auth.py:109-164 | on a failed check the error and no write; otherwise only the user's login time is set, and the answer carries its id, external id, e-mail, verification, name and role names |
| Auth.RefreshCheck | app/routes/auth.py:188-205 | an undecodable token or one missing "sub" or "user_id": 401; no user with that id and e-mail: 401; inactive: 403; otherwise that active user |
| Auth.RefreshEmptySub | app/routes/auth.py:195 | refresh accepts an empty "sub" that the request guard refuses |
| Auth.ForgotUnknownEmailFails | app/routes/auth.py:254-291 | as written, an unknown e-mail gets the 500 instead of the neutral answer |
| Auth.ForgotCheckAsWritten | app/routes/auth.py:251-263 | as written: an unknown e-mail or a user never updated gets the 500; a user updated on this UTC day gets "not today"; otherwise a reset of the first user with the e-mail |
| Auth.ForgotResetsUnusableAsWritten | app/routes/auth.py:254-274 | as written, a known account that is inactive, unverified or still waiting for its password, last updated on an earlier day, has its password reset |
| Auth.ForgotCheck | app/routes/auth.py:253-263 | the corrected check, with the guard read as `or`: an unknown e-mail, or a first account that is inactive, unverified or still waiting for its password, gets the neutral answer; any other account is answered as written, so a reset only reaches an account that can log in |
| Auth.ForgotNeutral | app/routes/auth.py:254-258 | with the guard corrected, an e-mail nobody has and an e-mail whose first account cannot log in yet both get the neutral answer, the message a reset also gives |
| Auth.ForgotPassword | app/routes/auth.py:244-291 | as written: a failed check (an unknown e-mail among them) is the 500 with no write; "not today": no write; a reset: only that user's hash becomes the hash of a fresh 12-character password and its update time is now |
| Auth.OneResetPerDay | app/routes/auth.py:260-271 | right after a reset, a second request on the same UTC day is refused |
| Auth.FirstSameMatches | app/routes/auth.py:253 | tables whose rows match the same positions answer `.first()` alike |
| Dependencies.UserByEmail | app/auth/utils.py:47-48 | the first user with the e-mail; none iff no user has it |
| Dependencies.CurrentUser | app/auth/dependencies.py:11-38 | succeeds iff the token decodes with a non-empty "sub" naming a user, and then gives that user; every failure is the 401 |
| Dependencies.CurrentActiveUser | app/auth/dependencies.py:41-45 | the current user's failure passes through; an inactive user: 400; succeeds iff the current user is active |
| Dependencies.CurrentActiveTeacher | app/auth/dependencies.py:48-54 | the current user's failure passes through; inactive: 403; no teacher role: 403; succeeds iff active and a teacher |
| Dependencies.TeacherGuardStricter | app/auth/dependencies.py:41-55 | whoever passes the teacher guard passes the active-user guard as the same user |
| Dependencies.InactiveAnswers | app/auth/dependencies.py:43-50 | an inactive user gets 400 from the active-user guard and 403 from the teacher guard |
| EventTypes.MinStagesOf | app/services/event_type_service/event_type_service.py:74 | the request's minimum as given, even when it is null; 0 when the request leaves it out |
| EventTypes.AddResults | app/services/event_type_service/event_type_service.py:93-100 | the results of one stage are inserted under ids from the counter on, which advances by exactly one per requested result |
| EventTypes.AddResultsRows | app/services/event_type_service/event_type_service.py:93-100 | one result row per requested result, under consecutive new ids, each of the stage and carrying the requested title and points; the rows already there are kept |
| EventTypes.AddStages | app/services/event_type_service/event_type_service.py:81-100 | the counter moves past at least one id per requested stage |
| EventTypes.AddStagesFrame | app/services/event_type_service/event_type_service.py:81-100 | new stage and result ids stay below the counter, and the stages and results already there are kept |
| EventTypes.AddStagesLinks | app/services/event_type_service/event_type_service.py:83-96 | every new stage belongs to the new type, and every new result to one of the new stages |
| EventTypes.AddStagesSnoc | app/services/event_type_service/event_type_service.py:82-100 | one more requested stage adds its stage row and then its results |
| EventTypes.AddStagesCount | app/services/event_type_service/event_type_service.py:81-90 | exactly one new stage row per requested stage |
| EventTypes.ByTitleOrders | app/services/event_type_service/event_type_service.py:198 | ordering types by title is a total preorder |
| EventTypes.Patched | app/services/event_type_service/event_type_service.py:146-148 | every given field is copied and every other kept |
| EventTypes.PatchIgnoresStages | app/services/event_type_service/event_type_service.py:147 | the stages of an update request change nothing |
| EventTypes.Catalogue.constructor | app/services/event_type_service/event_type_service.py:9-10 | the tables start empty, with the given users and id counter |
| EventTypes.Catalogue.InsertResults | app/services/event_type_service/event_type_service.py:93-100 | the results loop adds exactly what `AddResults` says and changes no other table |
| EventTypes.Catalogue.InsertStages | app/services/event_type_service/event_type_service.py:81-100 | the stages loop adds exactly what `AddStages` says and changes neither the types nor the events |
| EventTypes.Catalogue.Create | app/services/event_type_service/event_type_service.py:49-112 | a taken title: refused; a non-zero leader that does not exist: refused; a zero leader that does not exist: database error; in each case nothing changes; otherwise the type is added under the next id with its stages and results; titles stay unique |
| EventTypes.Catalogue.InsertType | app/services/event_type_service/event_type_service.py:70-101 | once the checks pass, the type row takes the next id and its stages and results follow as `AddStages` lays them out; titles stay unique and every id stays below the counter |
| EventTypes.Catalogue.Update | app/services/event_type_service/event_type_service.py:114-161 | an unknown id: None; a title another type holds: refused; a changed, non-zero leader id no user has: refused as "leader not found"; a leader id that passes that check (0, or unchanged) but names no user: the database error; a failure changes nothing; a success copies the given fields except the stages, and no other table changes; a free title and an existing leader always succeed |
| EventTypes.Catalogue.Delete | app/services/event_type_service/event_type_service.py:163-184 | an unknown id: false; a type with events: refused; a type that still has stages: database error; otherwise exactly that type is removed |
| EventTypes.Catalogue.ByLeader | app/services/event_type_service/event_type_service.py:186-203 | exactly the leader's types, sorted by title, each once |
| EventTypes.UniqueTitleAfterAdd | app/services/event_type_service/event_type_service.py:55-61 | adding a type whose title is not taken keeps titles unique |
| Groups.Led | app/routes/groups.py:26-31 | exactly the groups whose name the leader lists, no more than all groups |
| Groups.LedAppend | app/routes/groups.py:29-31 | the filter keeps the stored order: filtering a concatenation concatenates the filtered parts |
| Groups.LedAll | app/routes/groups.py:29-31 | when the leader lists every group's name, all groups come back in stored order |
| Groups.ForGroupLeader | app/routes/groups.py:23-33 | with a list, exactly the listed groups in stored order; with a null list, a 500 as soon as there is a group to test, and an empty answer otherwise |
| Groups.GroupById | app/routes/groups.py:46 | the group with that id, or none when no group has it |
| Groups.ClassTeacher | app/routes/groups.py:53-55 | the first user whose leader list holds the class name; none iff no user lists it |
| Groups.ParseName | app/routes/groups.py:84-96 | the grade is never negative and the letter holds no '-' |
| Groups.ParseRoundTrip | app/routes/groups.py:86-90 | a name written "<grade>-<letter>" gives back that grade and letter |
| Groups.ParseNoDash | app/routes/groups.py:86-90 | a name without '-' has letter ''; its grade is its decimal value when it is all decimal digits and 0 when it is not all digits |
| Groups.ParseErrorFallback | app/routes/groups.py:89-94 | a grade part that passes the digit test but is not decimal ("1²") fails the conversion and falls back to grade 0 and letter '' |
| Groups.ClassPageOf | app/routes/groups.py:42-110 | a missing class: 404; no class teacher: 404; otherwise the class with its id and name, a teacher who lists it, exactly its non-archived pupils, their count, and the grade and letter parsed from the name |
| Groups.LeaderClass | app/routes/groups.py:36-39 | a 500 iff the class is missing; otherwise exactly its non-archived pupils |
| Groups.SamePupils | app/routes/groups.py:39-73 | both class routes list the same pupils for a class that has a class teacher |
| UserFlags.LeadsSomeGroup | app/routes/user.py:27-31 | true iff some existing group's name is in the leader list |
| UserFlags.MainDataOf | app/routes/user.py:19-49 | id, name, e-mail, image and role names are the user's; `has_p_office` and `has_event_types` iff the list is non-empty; `has_groups_leader` iff some existing group is in the non-null leader list; `has_admin` iff the user has the "admin" role |
| UserFlags.FlagMatchesList | app/routes/user.py:27-31 | the flag is set exactly when the leader's class list would be non-empty |
| Grouping.GroupRows | app/routes/project_office.py:163-208 | the one-pass loop that creates an entry for each unseen key and updates it with each row gives, per key in first-appearance order, the entry of exactly that key's rows |
| Grouping.GroupAllGrouped | app/routes/project_office.py:163-208 | the grouping fold equals the declarative grouping by key |
| Sorting.SortBySorted | app/routes/events.py:134 | a stable sort under a total preorder yields a sorted sequence |
| Sorting.SortBy | app/routes/events.py:134 | the sort keeps the length and the elements (a permutation) |
| Sorting.KeyClass | app/routes/events.py:134 | the elements sharing a given key, in their order, never more than the sequence holds |
| Sorting.KeyedSwap | app/routes/events.py:134 | two elements of different keys commute within a key class |
| Sorting.InsertKeyClass | app/routes/events.py:134 | inserting an element puts it in front of every element of its own key |
| Sorting.SortByStable | app/routes/events.py:134 | the sort is stable: for every key, the elements carrying it come out in the order they went in |
| Text.Split | app/routes/groups.py:86-87 | `str.split`: at least one piece, the pieces joined by the separator give the string back, and no piece holds the separator |
| Text.SplitJoin | app/routes/groups.py:86-87 | splitting the join of separator-free pieces gives the pieces back |
| Text.LowerChar | app/services/sync_service/student_sync_service.py:42 | `str.lower` on one character: the result is never an upper-case letter, a character that is not one stays, and being alphanumeric is kept |
| Text.Lower | app/services/sync_service/student_sync_service.py:42 | `str.lower`: same length, no upper-case letter left |
| Text.KeepAlnum | app/services/sync_service/student_sync_service.py:45-46 | `''.join(c for c in s if c.isalnum())`: one character is kept iff it is alphanumeric; the result is made of the string's characters, all alphanumeric, and is the string itself when all of it is |
| Text.KeepAlnumAppend | app/services/sync_service/student_sync_service.py:45-46 | the filter distributes over concatenation, which with the one-character cases pins it as keeping the alphanumeric characters in order |
| Text.Strip | app/routes/events.py:110 | `str.strip`: a slice of the string with only whitespace outside it and none at either end; empty iff the string is all whitespace |
| Text.DecimalRoundTrip | app/routes/groups.py:89 | `int` of the decimal writing of a number is that number |
| Text.IntToString | app/routes/dailary.py:78 | the decimal writing of an id is non-empty, and all digits iff the id is not negative |

## Left out

- **Query construction.** The SQL and ORM queries are not modelled: the joins of the journal and pivot queries in app/routes/project_office.py, the record-book query in app/routes/mark_book.py, and every `db.query(...)`. Their results are input sequences and maps, in the order the query returns them.
- **Sessions.** Commit, rollback, refresh and autoflush are not modelled. A sync run is modelled by its final state; its per-insert commits are not. The failure of a later flush after a bad insert is not modelled.
- **Unique e-mails.** The unique e-mail column of `users` is not modelled. A sync that would duplicate an e-mail is modelled as succeeding.
- **Network and external databases.** The HTTP staff feed and the MySQL pupils table are parameters of `ExternalFeed`: a fetch delivers its rows or fails. Google sign-in is not part of this model.
- **Mail.** Sending mail is not modelled. The outcome of a resend is the `sent` parameter of `Registration.Accounts.ResendVerification`. The verification, welcome and reset mails are not modelled.
- **Cryptography and tokens.** Argon2 hashing and checking are the `hashOf` and `verify` parameters, or a given hash. JWT decoding is the `Dependencies.Claims` parameter. Issuing access and refresh tokens is not modelled, so `Auth.Login` returns only the user part of its answer. The generator of verification tokens is a parameter.
- **Clock and randomness.** `datetime.utcnow()` and `now()` are one `now` parameter per operation. `secrets.choice` is a sequence of draws.
- EventTypes.Catalogue.ByLeader: orders the titles by code point, because the database's collation is not modelled. `order_by(EventType.title)` (app/services/event_type_service/event_type_service.py:198) sorts by the PostgreSQL collation, which can differ: a locale collation puts "конкурс" before "Олимпиада", while code-point order puts "Олимпиада" (U+041E) first.
- Auth.GeneratePassword: does not state that the draws are uniform, because the draws are a parameter.
- **Floating point.** The `participation_rate` of the event page is a rounded float. The model keeps the two counts it is computed from, and `Events.GetEvent` states those counts but not the rate.
- **Integer widths.** Ids and scores are unbounded integers. The database columns are bounded, but the code never relies on the bound.
- **Unicode.** `str.isdigit`, `str.isalnum`, `str.lower` and `str.strip` use explicit character tables: ASCII, the basic Cyrillic block, and the superscript digits that `isdigit` accepts. They are not Python's full Unicode tables.
- **Response-only fields.** Fields that are copied through without logic are left out of the answers:
  - on the event page: academic year, start and end dates, the active flag, an achievement's date, proof path and stored pupil data;
  - in the journals: the possible-result display dicts;
  - in the login answer: the token fields and the message.
- **Error details.** Exception messages that are interpolated into a 500's detail are not modelled; the status is kept.
- **Unexpected exceptions.** The catch-all 500 of `refresh_token` (app/routes/auth.py:235-236) is not modelled, because nothing in the modelled checks raises there.
- **Null titles.** An update that sets the title to null explicitly is not modelled. `EventTypes.Patch` gives a title or leaves it unchanged.
- **Guard composition.** Each route's guard is `Dependencies.CurrentActiveTeacher` or `Dependencies.CurrentActiveUser`. The route models take the user that the guard returns, and do not compose the two.
- **Office lookup.** `set_priority_for_project_event` checks `current_user.p_office` and then looks the office up by leader. The model takes these two to agree and uses one map from leader to office.
- **Other routes.** These only query and return, with no logic of their own, and are not part of this model:
  - `get_event_stages` (app/routes/dailary.py:226-255);
  - `/groups/all`;
  - the event, student, group-leader and event-leader listing routes;
  - the admin panel and the routes that trigger the sync.
- **Logging.** `print` calls are not modelled.
- **Duplicate office links.** `ProjectOffice.OfficeEvents` keys the association table by (office, event), so two rows for the same pair, which the table has no primary key to forbid, are one link in the model.
- **Missing bearer token.** `Dependencies.CurrentUser` starts from a decoded token. A request with no Authorization header is answered 403 by FastAPI's `HTTPBearer` before the dependency runs, and that answer is not modelled: every failure the model shows is the 401.
- **String ids.** In the staff feed, ids are modelled as integers, so `uid` is `str(Id)` of an integer. String ids are not modelled.

## Findings

| source | as written | input that shows it | evidently intended | confidence | as-written member | corrected member |
|---|---|---|---|---|---|---|
| app/services/registration_service.py:32-34 | each assignment ends in a comma, so until the refresh at line 36 the Python attributes `password_hash`, `verification_token` and `verification_sent_at` hold one-element tuples; what is stored depends on the driver, and psycopg2 writes a one-element tuple as its value, so the committed row most likely holds the plain values (`Registration.AsWrittenCommitsRegistered`) | any registration, e.g. hash "h", token "t", time 0 gives ("h",), ("t",), (0,) before the commit | the three attributes hold the hash, the token and the time themselves | low (not executed) | Registration.AsWrittenAssignsTuples | Registration.AssignsMatchRegistered |
| app/routes/auth.py:254 | the guard is `not user and not user.is_active and not user.is_verified and user.requires_password`; for an unknown e-mail it reads an attribute of None, and the exception handler turns that into a 500; for a known user the first operand is false, so the guard never holds and an inactive, unverified or pending account is reset (`Auth.ForgotResetsUnusableAsWritten`) | any e-mail that no user has | the four operands joined by `or`: an unknown e-mail and an account that cannot log in yet get the neutral "if the user exists, a new password will be sent" answer, as the comment on the branch says; a known, usable account updated today is still told "not today" | high (not executed) | Auth.ForgotUnknownEmailFails | Auth.ForgotNeutral |
| app/routes/events.py:128 | the sort key is `getattr(stage, 'order', 0)`; stages have `stage_order` and no `order`, so every key is 0 and the sort keeps the stored order | stages stored as [(id 1, stage_order 2), (id 2, stage_order 1)] come out with stage 1 first | the statistics sorted by `stage_order` | medium (not executed) | Events.AsWrittenIgnoresStageOrder | Events.StatsOrdered |

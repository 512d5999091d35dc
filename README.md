# Task board with chat intake: a Dafny model

The system is a small task board. It has three serverless HTTP handlers and a
single-page front end:

- The **chat endpoint** (`lambda/chat/index.py`) hands a free-text task
  description to a language model. It finds the first brace-delimited span of
  the reply that holds the keys `"title"`, `"assignee"`, `"startDate"` and
  `"endDate"` in that order, decodes it, and writes one issue record.
- The **issues endpoint** (`lambda/issues/index.py`) lists, partially updates
  and deletes issues. Issues are keyed by (`id`, `createdAt`).
- The **projects endpoint** (`lambda/projects/index.py`) lists, creates and
  renames projects. When no project is stored it lists a default project.
- The **page** exists in two variants, `frontend/app.js` and
  `frontend/app.compiled.js`. It offers:
  - a chat form, with a natural-language reformatter for its input;
  - a task list, grouped by project and searchable by task id;
  - a 60-day Gantt chart whose bars can be moved or resized by dragging.

The chat handler checks only that the four keys are present in the parsed
reply, and stores their values unchecked (lambda/chat/index.py:66, 76-82).
Business days appear only in the prompt to the language model
(lambda/chat/index.py:28-32). The model does the same: it stores whatever
the reply holds and has no date arithmetic.

Modelling choices:

- Each handler is a `Step` function from the table contents and the request
  to the response and the new contents. A class holds the table
  (`Issues.IssueTable`, `Projects.ProjectTable`). Its `Handle` method changes
  the table in place and is proved equal to `Step`.
- The language model's reply, `uuid4()` and the current time are parameters.
- The issues table's key schema (lib/stacks/database-stack.ts:20-42) is part
  of the table. Key attributes and string index keys must be non-empty
  strings, and `priority` must be a number. A write that breaks the schema
  raises inside the handler's `try`, answers 500 and stores nothing.
- Request bodies arrive already decoded. `None` stands for a missing body or
  one that is not a JSON object.
- Front-end dates are integer day numbers. A missing start date reads as
  `today` and a missing end date as `today + 3`.
- For the holiday predicates, the calendar fields (year, month, day, weekday)
  are given as a record.

Modules and files:

| module | file |
|---|---|
| `Wrappers`, `Values` | `values.dfy` |
| `Strings` | `strings.dfy` |
| `FlatJson` | `flat_json.dfy` |
| `Chat` | `chat.dfy` |
| `Issues` | `issues.dfy` |
| `Projects` | `projects.dfy` |
| `Transcript` | `transcript.dfy` |
| `Lookups` | `lookups.dfy` |
| `Holidays` | `holidays.dfy` |
| `Tasks` | `tasks.dfy` |
| `Board` | `board.dfy` |
| `Gantt` | `gantt.dfy` |
| `Drag` | `drag.dfy` |
| `ChatClient` | `chat_client.dfy` |

## Model

| member | source | states |
|---|---|---|
| Strings.IndexOf | frontend/app.js:399 | the first occurrence of a substring: it occurs there and at no earlier index; `None` exactly when it occurs nowhere |
| Strings.Contains | frontend/app.js:399 | `includes` is true exactly when the substring occurs at some index |
| Strings.TrimEmptyIffAllSpace | frontend/app.js:261 | `trim()` yields the empty string exactly when every character is JavaScript whitespace |
| Strings.TrimmedEnds | frontend/app.js:28-33 | a trimmed string neither starts nor ends with whitespace |
| Strings.TrimIdempotent | frontend/app.js:28-33 | trimming twice is trimming once |
| Strings.TrimIsSlice | frontend/app.js:28-33 | the trimmed string is a contiguous slice of the input, and what is cut before and after it is all whitespace |
| Strings.Last | frontend/app.compiled.js:370 | `slice(-n)`: the last `n` characters, or the whole string when it is shorter |
| FlatJson.Decode | lambda/chat/index.py:45 | a decoded object's text starts, after whitespace, with an opening brace |
| FlatJson.StringRoundTrip | lambda/chat/index.py:45 | reading a written string literal gives back the string and the rest of the text |
| FlatJson.EscapeRoundTrip | lambda/chat/index.py:45 | reading an escaped string body up to its closing quote gives back the string and the rest |
| FlatJson.MembersRoundTrip | lambda/chat/index.py:45 | reading written members gives back the dictionary they make, with later keys winning |
| FlatJson.DecodeEncode | lambda/chat/index.py:45 | decoding an encoded flat object of strings yields the dictionary of its members |
| FlatJson.DecodeEncodeMembers | lambda/chat/index.py:45 | decoding an encoded non-empty member list yields its dictionary, with later keys winning |
| Chat.FindInOrderCorrect | lambda/chat/index.py:43 | the greedy first-occurrence search decides whether the four quoted keys occur in order |
| Chat.NextBrace | lambda/chat/index.py:43 | the next brace at or after a position, with no brace before it |
| Chat.MatchFrom | lambda/chat/index.py:43 | the span starting at a brace matches the pattern exactly when it ends at the next brace; there is at most one such span |
| Chat.SearchFrom | lambda/chat/index.py:43 | the leftmost start of a match at or after a position; no earlier position starts one |
| Chat.ExtractNoneIffNoMatch | lambda/chat/index.py:43-44 | `re.search` finds nothing exactly when no span matches the pattern |
| Chat.ExtractIsLeftmostMatch | lambda/chat/index.py:43-45 | the extracted span is the match with the leftmost start |
| Chat.ParseReply | lambda/chat/index.py:14-51 | a failed model call or a reply without a match gives `None`; a reply with a match gives the decoding of the extracted span |
| Chat.ParseReplyDecodesLeftmostMatch | lambda/chat/index.py:43-47 | for a reply with a match, the result is the decoding of the leftmost match, braces included |
| Chat.PriorityRank | lambda/chat/index.py:78 | `Low` gives 1, `High` gives 3, and every other value gives 2 |
| Chat.Handle | lambda/chat/index.py:53-100 | the handler's response and the new table are those of `Chat.Step`; every item keeps key attributes equal to its key |
| Chat.PreflightWritesNothing | lambda/chat/index.py:56-57 | OPTIONS answers 200 with an empty body and writes nothing |
| Chat.RejectedWritesNothing | lambda/chat/index.py:66-71 | a reply that is unusable or lacks a key gives 400 with `success` false, and nothing is written |
| Chat.ModelFailureIsRejection | lambda/chat/index.py:48-51 | a failed model call gives the 400 rejection, not a server error |
| Chat.RecordHasKey | lambda/chat/index.py:73-75 | the stored record carries its own key attributes |
| Chat.RecordCopiesReply | lambda/chat/index.py:76-82 | title, assignee and the dates are copied from the parsed reply without checks |
| Chat.RecordFromBody | lambda/chat/index.py:77-83 | the record has the message as description, status `Open`, the mapped priority, and the body's project or `default` |
| Chat.AcceptedWritesOneRecord | lambda/chat/index.py:86-92 | an accepted request with a non-empty id, time and assignee writes exactly one record under (id, now) and answers 200 with that id |
| Chat.RecordIndexKeysTyped | lib/stacks/database-stack.ts:30-42 | the record's index keys have the declared types exactly when the reply's assignee is non-empty |
| Chat.UnstorableRecordFails | lambda/chat/index.py:86-100 | an accepted request with an empty id, time or assignee makes `put_item` raise: 500, and nothing is written |
| Chat.StepKeepsSchema | lambda/chat/index.py:73-86 | every stored issue keeps a non-empty key and well-typed index keys |
| Chat.StepKeepsKeysMatch | lambda/chat/index.py:73-86 | every stored item keeps key attributes equal to its key |
| Chat.PriorityLabels | lambda/chat/index.py:62 | the label table, with a missing label defaulting to Medium, which gives 2 |
| Chat.Step | lambda/chat/index.py:53-100 | the handler as a function: OPTIONS, then an unreadable body (500), an unusable reply (400), an unhashable priority (500), a record outside the key schema (500), else one record written; its properties are the lemmas below it |
| Issues.BuildUpdate | lambda/issues/index.py:33-40 | the field-by-field loop builds exactly `Patch(body)` |
| Issues.Step | lambda/issues/index.py:16-60 | the handler as a function of the table and the request; its properties are the Issues lemmas in this table |
| Issues.IssueTable.Handle | lambda/issues/index.py:16-60 | the handler's outcome and the new table are those of `Issues.Step`; every item keeps key attributes equal to its key, a non-empty key and well-typed index keys |
| Issues.IssueTable.Put | lambda/chat/index.py:86 | `put_item` stores the record under its key and replaces any item stored there; it refuses, changing nothing, exactly a record outside the key schema |
| Issues.IssueTable.Update | lambda/issues/index.py:42-47 | `update_item` writes the patch over the addressed item, or creates the item from its key and the patch; it refuses, changing nothing, exactly an empty key part or an ill-typed index key in the patch |
| Issues.IssueTable.Delete | lambda/issues/index.py:55 | `delete_item` removes the addressed item, if any; it refuses, changing nothing, exactly a key with an empty part |
| Issues.PutKeepsKeysMatch | lambda/chat/index.py:73-86 | storing a record that carries its key keeps every item's key attributes equal to its key |
| Issues.UpdatedKeepsKeysMatch | lambda/issues/index.py:42-47 | a patch that writes neither key attribute keeps every item's key attributes equal to its key |
| Issues.UpdatedIdempotent | lambda/issues/index.py:42-47 | writing the same patch twice is writing it once |
| Issues.PatchContents | lambda/issues/index.py:33-40 | PUT writes `status` (the body's, else `Open`) and, besides it, only the optional fields present in the body |
| Issues.PatchAvoidsKeys | lambda/issues/index.py:37-43 | PUT never writes the key attributes |
| Issues.StepKeepsKeysMatch | lambda/issues/index.py:42-55 | every request keeps each item's key attributes equal to its key |
| Issues.ReadsChangeNothing | lambda/issues/index.py:19-27 | OPTIONS, GET and unserved methods leave the table as it was; a missing method raises |
| Issues.MissingCreatedAtFails | lambda/issues/index.py:43 | a PUT or DELETE whose body has no `createdAt` answers 500 and writes nothing |
| Issues.PutChangesOnlyPatchedAttributes | lambda/issues/index.py:29-49 | a successful PUT changes only the addressed item; in it every attribute it does not write, including an optional field the body lacks, keeps its value or stays absent; an item not stored yet is created from its key attributes and the written attributes |
| Issues.MergeIndexKeysTyped | lib/stacks/database-stack.ts:30-42 | over an item with well-typed index keys, the updated item has well-typed index keys exactly when the patch does |
| Issues.StepKeepsSchema | lambda/issues/index.py:42-55 | every request keeps every stored issue's key non-empty and its index keys well typed |
| Issues.PutAcceptedIff | lambda/issues/index.py:42-60 | a PUT with a key succeeds exactly when both key parts are non-empty, the body's `status` (if any) is a non-empty string and its `priority` (if any) a number; otherwise it answers 500 and writes nothing |
| Issues.EmptyKeyFails | lambda/issues/index.py:43-60 | a PUT or DELETE whose path id or `createdAt` is empty answers 500 and writes nothing |
| Issues.PutIdempotent | lambda/issues/index.py:42-47 | repeating a PUT leaves the table as one PUT does |
| Issues.DeleteRemovesExactly | lambda/issues/index.py:51-57 | a DELETE with a non-empty key removes exactly the addressed item and answers 200 |
| Issues.PatchKeepingStatusContents | lambda/issues/index.py:33-35 | the corrected patch writes `status` exactly when the body has it, and otherwise writes what `Patch` writes |
| Projects.ProjectTable.Handle | lambda/projects/index.py:17-57 | the handler's outcome and the new table are those of `Projects.Step`; every project keeps its `id` attribute equal to its key |
| Projects.Step | lambda/projects/index.py:17-57 | the handler as a function of the table and the request; its properties are the Projects lemmas in this table |
| Projects.ProjectTable.Put | lambda/projects/index.py:35-39 | `put_item` stores the project under its id |
| Projects.ProjectTable.SetName | lambda/projects/index.py:47-52 | `update_item` sets `name` on the addressed project, creating it from its id when missing |
| Projects.InsertFresh | lambda/projects/index.py:33-39 | storing under a fresh id adds one key and keeps every other project |
| Projects.StepKeepsIdsMatch | lambda/projects/index.py:31-54 | every stored project keeps its `id` attribute equal to its key |
| Projects.GetEmptyListsDefault | lambda/projects/index.py:26-29 | GET on an empty table lists exactly the default project and stores nothing |
| Projects.GetListsStored | lambda/projects/index.py:26-29 | GET on a non-empty table lists exactly the stored projects |
| Projects.PostAddsOne | lambda/projects/index.py:31-41 | POST with a fresh id adds exactly one project, with the body's name, and answers with the id |
| Projects.PutRenamesOnly | lambda/projects/index.py:43-54 | PUT changes only the name of the addressed project |
| Projects.MissingNameFails | lambda/projects/index.py:37 | POST or PUT without `name` answers 500 and writes nothing |
| Projects.OtherMethodsChangeNothing | lambda/projects/index.py:20-21 | OPTIONS answers 200 with an empty body; other unserved methods return nothing; neither writes |
| Transcript.ParseNaturalLanguage | frontend/app.js:22-36 | the three parts read by their regular expressions, trimmed, and put into the template; its properties are ParseShape, ReformatIsIdentity and the Spoken lemmas |
| Transcript.SepRunFrom | frontend/app.js:24-26 | the end of the run of `[：:\s]` characters from a position |
| Transcript.FirstForbidden | frontend/app.js:24-26 | the first character of the excluded class at or after a position |
| Transcript.LookaheadCorrect | frontend/app.js:24-26 | the lookahead test decides `(?=\s*label\|\s*label\|$)` |
| Transcript.CaptureSound | frontend/app.js:24-26 | a capture found after a label is a separator run followed by a lazy capture that the lookahead accepts |
| Transcript.MatchAtStartSound | frontend/app.js:24-26 | a match found at a position satisfies the regular expression there |
| Transcript.MatchAtStartPreferred | frontend/app.js:24-26 | no other match at that position is preferred by backtracking order (greedy separators, lazy capture) |
| Transcript.FindFromCorrect | frontend/app.js:24-26 | `match` returns the leftmost match with the backtracking preference, or nothing when none exists |
| Transcript.FindIsPreferred | frontend/app.js:24-26 | the found match is the preferred one; nothing is found exactly when nothing matches |
| Transcript.FindCaptureAllowed | frontend/app.js:24-26 | a capture contains none of the excluded characters |
| Transcript.PartClean | frontend/app.js:29-33 | each reformatted part is trimmed and free of the excluded characters |
| Transcript.ParseShape | frontend/app.js:28-35 | the result always has the three-line template shape with trimmed parts |
| Transcript.PartOfLayout | frontend/app.js:24-33 | a label followed by a separator and a clean value, then a later label or the end, yields that value |
| Transcript.TitlePart | frontend/app.js:24 | the title is read back from the template |
| Transcript.AssigneePart | frontend/app.js:25 | the assignee is read back from the template |
| Transcript.PeriodPart | frontend/app.js:26 | the period is read back from the template |
| Transcript.ReformatIsIdentity | frontend/app.js:22-35 | reformatting an already-formatted input with clean parts returns it unchanged |
| Transcript.SpokenExample | frontend/app.js:23 | the spoken example in the comment reformats to its title, assignee and period |
| Transcript.SpokenTitle | frontend/app.js:24 | the spoken example's title is `API実装` |
| Transcript.SpokenAssignee | frontend/app.js:25 | the spoken example's assignee is `石鍋` |
| Transcript.SpokenPeriod | frontend/app.js:26 | the spoken example's period is `今日から3日` |
| Lookups.PriorityText | frontend/app.js:206 | 1 and "1" give Low, 3 and "3" give High, and every other integer or string gives Medium |
| Lookups.PriorityTextInvertsRank | frontend/app.js:206 | the label shown for a stored rank is the label that was sent |
| Lookups.RankInvertsPriorityText | frontend/app.js:206 | the stored rank of a shown label is the number it was shown for |
| Lookups.UnknownLabelShowsMedium | frontend/app.js:206 | an unknown label is stored as 2 and shown as Medium |
| Lookups.StatusColor | frontend/app.js:207 | blue exactly for In Progress, pink exactly for Review, green exactly for Closed, and grey for Open and any other modelled status |
| Lookups.NextStatus | frontend/app.js:213 | gives Review exactly from In Progress and Closed exactly from Review, and In Progress from every other modelled status |
| Lookups.NextStatusNeverEmpty | frontend/app.js:213 | the next status is never the empty string |
| Lookups.StatusCycle | frontend/app.js:213 | Open reaches Closed in three steps; Closed goes back to In Progress; Open is never reached again |
| Lookups.StatusColoursDistinct | frontend/app.js:207 | the statuses after Open have colours distinct from every other status |
| Lookups.ToInt32 | frontend/app.js:210 | the result is a 32-bit signed value, congruent to the input modulo 2^32 |
| Lookups.ToInt32Congruent | frontend/app.js:210 | the 32-bit conversion depends only on its argument modulo 2^32 |
| Lookups.HashStepWraps | frontend/app.js:210 | `(a << 5) - a + code` then `a & a` is the wrapped `31·a + code` |
| Lookups.HashIsWrappedPolynomial | frontend/app.js:210 | the fold is the wrapped polynomial hash of the UTF-16 code units |
| Lookups.AssigneeColor | frontend/app.js:208-212 | one of the five colours, at index `abs(hash) mod 5` |
| Lookups.EmptyAssigneeColour | frontend/app.js:208-212 | the empty name gets the first colour |
| Holidays.PageIsHoliday | frontend/app.js:214-224 | `isHoliday` of app.js; its properties are PageIgnoresYear, PageWeekend and PageWeekendShifted |
| Holidays.CompiledIsHoliday | frontend/app.compiled.js:231-291 | `isHoliday` of the compiled page; its properties are Compiled2026 and CompiledOtherYears |
| Holidays.PageIgnoresYear | frontend/app.js:214-224 | the page's predicate depends on weekday, month and day only |
| Holidays.PageWeekend | frontend/app.js:216 | Friday and Saturday are always holidays on the page |
| Holidays.PageWeekendShifted | frontend/app.js:216 | a Friday counts as a holiday and a plain Sunday does not, unlike the corrected predicate |
| Holidays.CorrectedWeekend | frontend/app.compiled.js:232-233 | the corrected predicate has the Saturday/Sunday weekend and agrees with the written one from Monday to Thursday |
| Holidays.Compiled2026 | frontend/app.compiled.js:240-275 | in 2026 a weekday is a holiday exactly when its date is one of the nineteen listed |
| Holidays.CompiledOtherYears | frontend/app.compiled.js:279-291 | in other years a weekday is a holiday exactly when its date is on the short list |
| Holidays.OtherYearsWithinPageList | frontend/app.compiled.js:279-291 | every date on the short list is also on the page's list |
| Tasks.Distinct | frontend/app.compiled.js:565 | `[...new Set(xs)]` holds exactly the values of `xs` |
| Tasks.DistinctFirstAppearance | frontend/app.compiled.js:565 | each value appears once, in the order of its first appearance |
| Tasks.FirstIndex | frontend/app.compiled.js:565 | the index of the first occurrence holds the value |
| Tasks.FirstIndexLeast | frontend/app.compiled.js:565 | no earlier index holds the value |
| Tasks.FilterMembers | frontend/app.compiled.js:549-555 | `filter` keeps exactly the accepted elements |
| Tasks.FilterTwice | frontend/app.compiled.js:549-555 | successive filters are one filter by the conjunction |
| Tasks.FilterCount | frontend/app.compiled.js:549-555 | a filter keeps every copy of an accepted value and none of the others |
| Tasks.FilterAll | frontend/app.js:399 | a filter that accepts everything keeps the list as it is |
| Board.GroupKey | frontend/app.js:384 | the group key is never empty, and it is `default` exactly when the project id is missing, empty or `default` |
| Board.GroupKeys | frontend/app.js:384 | the key list has one entry per task, the group key of the task at the same index |
| Board.GroupByProject | frontend/app.js:383-388 | the reduce yields the distinct project keys in first-appearance order, each mapped to its tasks in list order |
| Board.PushKeepsGrouped | frontend/app.js:384-386 | one push onto a key's array, created when missing, keeps the groups those of the longer list |
| Board.GroupingPartitions | frontend/app.js:383-394 | every task is in the group of its own key and in no other; keys are distinct; group sizes sum to the task count |
| Board.GroupSizesSum | frontend/app.js:383-388 | the group sizes add up to the number of tasks |
| Board.InGroupMembers | frontend/app.js:384-386 | a group holds exactly the tasks with its key |
| Board.SearchGroupMembers | frontend/app.js:399 | the search keeps a task exactly when the text is empty or occurs in the id |
| Board.EmptySearchKeepsAll | frontend/app.js:399 | an empty search keeps the whole group, in order |
| Board.EmptySearchIncluded | frontend/app.js:399 | the empty string occurs in every id, so the empty-text test is redundant |
| Gantt.SortByStart | frontend/app.compiled.js:558-562 | the sort keeps the length; its properties are SortSorted, SortPermutes and SortStable |
| Gantt.InsertPos | frontend/app.compiled.js:558-562 | the insertion point: every task before it starts no later than the inserted one, and in a sorted list every task from it on starts later |
| Gantt.InsertSorted | frontend/app.compiled.js:558-562 | inserting into a sorted list keeps it sorted by start |
| Gantt.InsertAdds | frontend/app.compiled.js:558-562 | inserting adds exactly the one task |
| Gantt.InsertStable | frontend/app.compiled.js:558-562 | the inserted task goes after every task with the same start |
| Gantt.SortSorted | frontend/app.compiled.js:558-562 | the sorted rows are ascending by start date, a missing start reading as today |
| Gantt.SortPermutes | frontend/app.compiled.js:558-562 | the sort is a permutation of its input |
| Gantt.SortStable | frontend/app.compiled.js:558-562 | tasks with equal start dates keep their relative order |
| Gantt.GanttRows | frontend/app.compiled.js:549-562 | the three filters and the sort yield the shown tasks sorted by start |
| Gantt.GanttRowsSpec | frontend/app.compiled.js:549-562 | the rows are sorted, hold each shown task as often as the list does, and keep equal starts in list order |
| Gantt.AssigneeOptionsCover | frontend/app.compiled.js:565 | every shown row's assignee is an option, and no option repeats |
| Gantt.MinOf | frontend/app.js:430 | `Math.min` of a non-empty list is a member that no member undercuts |
| Gantt.AllDatesHasTask | frontend/app.js:426-429 | both dates of every task are collected |
| Gantt.AllDatesFromTasks | frontend/app.js:426-429 | every collected date is a date of some task |
| Gantt.WindowStart | frontend/app.js:426-433 | the first day of the chart; its properties are WindowStartBounds and RowsStartInsideWindow |
| Gantt.WindowStartBounds | frontend/app.compiled.js:566-570 | the window starts at most today − 15 and a week before every task date; it is one of those bounds; with no task it is today − 37 |
| Gantt.BuildDays | frontend/app.js:436-440 | exactly 60 consecutive days from the window start |
| Gantt.Duration | frontend/app.js:476 | a bar spans at least one day |
| Gantt.BarOf | frontend/app.js:476-487 | the bar of a row, or none when the row is skipped; its properties are BarSkipped, BarInsideChart and BarCoversDays |
| Gantt.BarSkipped | frontend/app.js:479 | a row is skipped exactly when the task starts after the window or ends more than a day before it |
| Gantt.BarInsideChart | frontend/app.compiled.js:641-652 | every drawn bar has left ≥ 0, is at least a column wide, and ends within 60 columns |
| Gantt.BarCoversDays | frontend/app.js:476-487 | a bar starting in the window covers exactly the columns of the task's days |
| Gantt.RowsStartInsideWindow | frontend/app.js:426-487 | every task starts at least a week into its window, so no bar is clipped on the left |
| Gantt.RowsApart | frontend/app.compiled.js:646 | a later row's top lies at least one pitch (40 px here, 60 px in app.js) below an earlier row's top |
| Drag.GridDelta | frontend/app.js:151-152 | `Math.round(dx / 30)` is within half a column of `dx` |
| Drag.GridDeltaUnique | frontend/app.js:151-152 | the rounded column count is the only whole number within half a column of `dx` |
| Drag.DragUpdate | frontend/app.js:151-173 | what a mouse-move sends; its properties are SmallMoveIgnored, UpdateAddressesDraggedTask, MoveKeepsLength and ResizeKeepsStart |
| Drag.SmallMoveIgnored | frontend/app.js:154 | a move sends nothing exactly when the mouse moved less than half a column |
| Drag.UpdateAddressesDraggedTask | frontend/app.js:167-171 | an update addresses the dragged task's key |
| Drag.MoveKeepsLength | frontend/app.js:162-167 | a move shifts the start by the column count and keeps the length |
| Drag.ResizeKeepsStart | frontend/app.js:168-173 | a resize keeps the start and moves the end; it is sent exactly when the end stays after the start |
| Drag.DateRequestPatch | frontend/app.js:226-232 | the endpoint writes the two dates of a date request, plus `status` as `Open` |
| Drag.DragReopensTask | lambda/issues/index.py:33-35 | a drag of a stored task (non-empty key) stores the new dates and sets the status to `Open` |
| Drag.DragKeepsStatusCorrected | lambda/issues/index.py:33-35 | with the corrected patch, a drag stores the new dates and keeps the stored status |
| Drag.DragController.MouseDown | frontend/app.js:442-446 | starts a drag of the task from the mouse position |
| Drag.DragController.MouseMove | frontend/app.js:147-176 | with no drag, nothing; a small move keeps the drag; otherwise the update of `DragUpdate` and the drag ends |
| Drag.DragController.MouseUp | frontend/app.js:178-180 | ends the drag |
| ChatClient.SendGuard | frontend/app.js:261 | a request goes out exactly when the input has a non-space character and a project is selected |
| ChatClient.ResetInputIsSent | frontend/app.js:264 | the reset template is not blank, so sending it unchanged posts a request |
| ChatClient.PageMessageLost | frontend/app.js:267-278 | the page's body has no `message`, so the endpoint stores an empty description |
| ChatClient.CompiledMessageKept | frontend/app.compiled.js:356-365 | the compiled body delivers the text as the description; project and priority arrive with either body |
| ChatClient.SuccessText | frontend/app.compiled.js:370 | the text holds exactly the last (up to) eight characters of the id |
| ChatClient.SuccessTextExample | frontend/app.compiled.js:368-371 | id `test-12345678` is shown as `Task #12345678 created successfully!` |
| ChatClient.AssistantContent | frontend/app.js:280-289 | the assistant line for the endpoint's answer; its properties are the Shown lemmas |
| ChatClient.InvalidBodyShown | frontend/app.js:284 | an unreadable body is shown with the endpoint's error text |
| ChatClient.RejectionShown | frontend/app.js:284 | an unparsable reply is shown with the rejection message |
| ChatClient.UnhashableShown | frontend/app.js:284 | a list or object as priority is shown with the endpoint's error text |
| ChatClient.AcceptedShown | frontend/app.js:281 | an accepted request that the table stores is shown with the last eight characters of the new id |
| ChatClient.SchemaViolationShown | frontend/app.js:284 | a record the table refuses is shown with the endpoint's error text |
| ChatClient.ChatPage.Send | frontend/app.js:260-292 | with a failing guard nothing changes; otherwise the text is logged, the input reset, the body posted and the answer logged |

## Left out

- Rendering, hooks and effects, DOM listeners, speech recognition and `fetch` are left out. The endpoint's answer to the chat form is a parameter of `ChatClient.ChatPage.Send`.
- The language-model call and its prompt are not modelled. The prompt asks the model for business days excluding holidays; that arithmetic is never checked and is not modelled. The reply is a parameter.
- `uuid4()` and `utcnow()` are parameters. CORS headers and logging are not modelled.
- DynamoDB is a map from key to item. The scan's order is unspecified, so it is a set. Its 1 MB page limit is not modelled, so every item is listed. `Decimal` conversion on output is not modelled.
- The language of request bodies is not modelled: a body is given decoded, and `None` stands for every body that `json.loads` or `.get` rejects.
- Chat.ParseReply: the reply's object is decoded only when it is flat, with string keys and values, and without `\uXXXX` escapes. `json.loads` also accepts numbers, nested values and unicode escapes, and the handler would store them. The model rejects such replies instead.
- Values.Value has no `null` and no non-integer number. The handlers accept such bodies: `{"projectId": null}` on the chat endpoint stores a NULL project (lambda/chat/index.py:83), and a number such as `2.5` among the fields of an issues PUT reaches `update_item` (lambda/issues/index.py:37-42). Neither case is modelled.
- Chat.Step and Issues.Step: an exception's text is abstracted to a fixed reason ("invalid request", "unhashable type", "ValidationException").
- Gantt.SortByStart: the in-place `Array.prototype.sort` is modelled as a stable sort on a value. Unknown or invalid date strings, whose difference is `NaN`, are not modelled.
- The app.js chart sorts rows by `assigneeId` with `localeCompare`, in place on the task list. The collation order and that mutation are not modelled. The window and bar geometry of each row are.
- Dates are day numbers. Parsing date strings, local versus UTC midnight, `toISOString` and the conversion from a day number to calendar fields are left out. Drag.DateRequestBody therefore carries day numbers where the page sends ISO date strings; the endpoint copies either verbatim.
- Drag.GridDelta: `clientX` is taken as a whole number of pixels.
- Board.GroupByProject: JavaScript object key order is not modelled. `Object.entries` lists integer-like keys first; the model keeps first-appearance order for all keys. A key naming an `Object.prototype` member, such as `toString`, makes the page's push throw; that is not modelled either.
- A task whose `id` or `assigneeId` is missing makes `includes`, `split` or `localeCompare` throw. Tasks here always carry strings.
- ChatClient.AssistantContent: an `issueId` that is truthy but not a string is shown as the failure text. That is what a number, boolean or object raises. An array would instead be joined with commas.
- Lookups.PriorityText: the property lookup is modelled for integers and strings. Other keys, such as `1.0` written as a float, are not modelled. A string naming an inherited `Object.prototype` member (`constructor`, `toString`, `valueOf`, `__proto__` and the like) is not modelled either: the object literal returns that truthy member, so the page shows it instead of Medium.
- Lookups.StatusColor: a status naming an inherited `Object.prototype` member is not modelled. The lookup returns that truthy member instead of a colour, so the contract's four colours cover only the other strings.
- Lookups.NextStatus: a status naming an inherited `Object.prototype` member is not modelled. For `constructor` the lookup returns the `Object` function; `JSON.stringify` drops it from the PUT body, and the issues endpoint then writes `Open` (lambda/issues/index.py:35). The contract's three results cover only the other strings.
- Strings.Last and Board.SearchGroupMembers: task ids are cut by `slice(-8)` and searched by `includes` as sequences of code points, where JavaScript counts UTF-16 code units. The two differ only for characters outside the Basic Multilingual Plane, which uuid4 ids never hold.
- The key schema is modelled only for the issues table, through empty strings and attribute types. DynamoDB's other limits (38-digit numbers, 400 KB items, nesting depth) are not modelled. The projects table's only key is `id`, which comes from uuid4 or from the path, and API Gateway never delivers an empty path parameter, so its check is left out.
- Gantt.RowsApart: the height of a row is set by the stylesheet, which is not part of this model, so the lemma states only the spacing of the row tops, not that rows do not overlap.

## Findings

| source | as written | input that shows it | evidently intended | confidence | as-written member | corrected member |
|---|---|---|---|---|---|---|
| frontend/app.js:216 | `getDay() >= 5` makes Friday and Saturday the weekend | Friday 2026-10-16 is a holiday and Sunday 2026-10-18 is not | Saturday and Sunday, as in frontend/app.compiled.js:233 | high, not executed | Holidays.PageIsHoliday, Holidays.PageWeekendShifted | Holidays.PageIsHolidayCorrected, Holidays.CorrectedWeekend |
| frontend/app.js:270-277 | the typed text is posted as `messages[0].content`, but the endpoint reads `message` (lambda/chat/index.py:61) | any text, e.g. `タイトル：API実装`: the prompt's input line is empty and the stored description is `""` | post `message`, as frontend/app.compiled.js:361 does | high, not executed | ChatClient.PageRequestBody, ChatClient.PageMessageLost | ChatClient.CompiledRequestBody, ChatClient.CompiledMessageKept |
| lambda/issues/index.py:35 | every PUT writes `status`, defaulting to `Open`; a bar drag sends no status (frontend/app.js:231) | dragging the bar of a Closed task stores status `Open` | a date-only update keeps the status | medium, not executed | Drag.DragReopensTask | Drag.DragKeepsStatusCorrected, Issues.PatchKeepingStatus |

# StudyLog: a verified model of the study-log app's logic

StudyLog is a study-log web application for learners, their parents and their teachers.
Learners record what they studied and how it felt. Parents and teachers send encouragement.
The application shows streaks, per-subject accuracy, attempt histories and feedback timelines.
This project models the application's logic in Dafny and proves what each piece promises:

- **Encouragement messages** (`Messages`, `PersonalizedFeedback`, `ApiHandler`):
  - the template fallback: the subject label, the rounded accuracy, the seed and its three variant slots, and the type and emoji triple for each sender;
  - the fixed default triples;
  - the client orchestrator, which falls back on any failure;
  - the panel's fallback when loading fails, which uses a one-record history;
  - the server handler's 405, 400 and 200 cascade.
- **History aggregation**:
  - the dashboard streak, subject cards, recent feelings, today's cards and milestone text (`Dashboard`);
  - the feedback page's streak, subject sums, per-record attempt histories, feedback filter and comment sending (`FeedbackPage`);
  - the history page's join, filter, sort, sort toggle, labels and feedback timeline (`HistoryPage`);
  - the teacher page's filter, comparator, menus, CSV export and accuracy colours (`TeacherRecords`, `Csv`);
  - the attempt history shared by these pages (`Records`).
- **Small state machines and stores**:
  - the role-password store and its 32-bit string hash (`RoleAuth`, over the `localStorage`/`sessionStorage` class `BrowserStorage.Storage`);
  - the sign-in hook (`UseAuth`);
  - the member table (`Members`);
  - the two password dialogs (`PasswordModals`);
  - the reflection upsert by date (`Reflections`);
  - the two study-record forms (`StudyForms`).
- **Validity predicates** of the `study_records` and `feedbacks` tables, taken from their SQL CHECK constraints (`Schema`).

Shared modules model the JavaScript runtime behaviour the code relies on:

- `Text`: `trim`, `parseInt`, number-to-string, UTF-16 code units, `includes`, `join` and code-unit string order.
- `Percent`: `Math.round(c / t * 100)` computed exactly in integers as `(200c + t) div 2t`, with the `NaN` and `Infinity` cases.
- `Lists`: a stable sort by a comparator, `filter` and de-duplication.
- `Json`: property reads on parsed values.
- `ObjectLiteral`: `table[key] || fallback` on an object literal, which also finds the names every object inherits from `Object.prototype`.
- `Dates`: day numbers to `YYYY-MM-DD`.

Model conventions:

- Dates are integer day numbers.
- The clock, the random seed, network replies, database reads and writes, `JSON.parse`/`stringify`, `toLowerCase` and locale formatting are parameters of the operations that use them.
- A `storageOk`, `writeOk` or `readOk` flag says whether the call inside a `try` returns or throws.
- Components whose handlers update state step by step are classes whose methods modify their fields.
- Pure helpers are functions. Each is paired with lemmas that state what it means.

## Model

| member | source | states |
|---|---|---|
| Messages.SubjectLabelTable | src/lib/openai.ts:94-102 | the five subject codes map to 適性/国語/算数/理科/社会; any other code is shown unchanged. The read as written, `subjectMapping[code] \|\| code`, gives the same string for every code that is not an `Object.prototype` name, and the inherited member, no string, for those names |
| Messages.RandomIndex | src/lib/openai.ts:109-110 | the seed's character-code sum taken `% 100` lies in [0, 100) |
| Messages.SlotVariantsDistinct | src/lib/openai.ts:109-110 | the three slots use variants `r%4`, `(r+1)%4` and `(r+2)%4`; these are pairwise distinct and all in range |
| Messages.FallbackTexts | src/lib/openai.ts:135-151 | the fallback builds exactly three texts |
| Messages.WithSlots | src/lib/openai.ts:135-191 | three texts become three messages carrying those texts, with the sender's emoji and type in slot order |
| Messages.FallbackMessages | src/lib/openai.ts:112-191 | exactly 3 messages. A parent gets encouraging 😊, specific_praise 🎯, loving 💝; any other sender gets encouraging 📈, instructional 🎯, motivational 💪 |
| Messages.DefaultMessages | src/lib/openai.ts:195-209 | the defaults are three messages with the same type and emoji triple as the fallback for each sender |
| Messages.ParentEncouragingMentions | src/lib/openai.ts:114-119 | every parent variant of slot 1 starts with the subject label and mentions the accuracy |
| Messages.TeacherEncouragingMentions | src/lib/openai.ts:154-159 | every teacher variant of slot 1 starts with the subject label and mentions the accuracy |
| Messages.ParentSpecificMentions | src/lib/openai.ts:121-126 | every parent variant of slot 2 starts with the subject label and mentions the correct count |
| Messages.TeacherInstructionalMentions | src/lib/openai.ts:161-166 | every teacher variant of slot 2 starts with the subject label and mentions the correct count |
| Messages.DaysMentions | src/lib/openai.ts:128-173 | every variant of slot 3, for both senders, opens with the continuation days followed by 日 |
| Messages.FallbackTextsMention | src/lib/openai.ts:114-133 | whichever variants the seed picks: text 1 names the subject and the accuracy, text 2 the subject and the correct count, text 3 the continuation days |
| Messages.FallbackMentions | src/lib/openai.ts:112-191 | the same three facts, stated about the fallback messages themselves |
| Messages.GeneratePersonalizedMessages | src/lib/openai.ts:72-85 | the local fallback is used exactly when the reply is unusable (thrown, non-ok, or an unreadable body). Otherwise the result is the reply's `messages` property, unchecked |
| Messages.FailureGivesThreeTypedMessages | src/lib/openai.ts:80-85 | on any failure, the result is the fallback for the same inputs: three messages typed by sender |
| PersonalizedFeedback.DirectFallbackHistory | src/components/PersonalizedFeedback.tsx:58-73 | the fallback history holds the one record, 1 day in total, 1 continuation day, and that subject's correct and total counts only |
| PersonalizedFeedback.DirectFallbackSaysOneDay | src/components/PersonalizedFeedback.tsx:100 | in that path the third message opens with "1日" |
| PersonalizedFeedback.ErrorStillShowsThreeMessages | src/components/PersonalizedFeedback.tsx:60-76 | despite the error flag, the panel shows three messages typed by sender |
| PersonalizedFeedback.FeedbackPanel.LoadPersonalizedMessages | src/components/PersonalizedFeedback.tsx:33-79 | loading ends false. The error is set exactly when the history read fails, and then the fallback is built on the one-record history. Otherwise the messages are the orchestrator's result |
| PersonalizedFeedback.TypeColorCases | src/components/PersonalizedFeedback.tsx:296-305 | the five types get five distinct colours, none of them the gray default; other types get gray. The read as written, `colors[type] \|\| gray`, agrees for every type that is not an `Object.prototype` name, and gives the inherited member for those names |
| PersonalizedFeedback.TypeLabelCases | src/components/PersonalizedFeedback.tsx:307-316 | the five types get five distinct labels, none of them a type name; other types pass through. The read as written, `labels[type] \|\| type`, agrees for every type that is not an `Object.prototype` name, and gives the inherited member for those names |
| PersonalizedFeedback.ProtoTypeAsWritten | src/components/PersonalizedFeedback.tsx:296-316 | a reply whose message type is `__proto__` gets no string from either table as written; the own-key reads give the type itself and gray |
| PersonalizedFeedback.SlotTypesAreKnown | src/components/PersonalizedFeedback.tsx:82-199 | every fallback slot's type is one of the five types the panel colours and labels |
| ApiHandler.SystemPromptFor | api/generate-messages.js:81 | the parent prompt is chosen iff `senderType === 'parent'` |
| ApiHandler.Destructure | api/generate-messages.js:75 | destructuring `req.body` throws exactly when the body is missing or null |
| ApiHandler.Handle | api/generate-messages.js:69-117 | the handler ends in an uncaught throw exactly on a POST without a body: the destructuring throws, and so does the catch's read of `req.body.senderType`. An error body comes only with 400 or 405 |
| ApiHandler.NonPostIs405 | api/generate-messages.js:70-72 | any method but POST gives 405 "Method not allowed" |
| ApiHandler.MissingParameterIs400 | api/generate-messages.js:77-79 | for a POST with an object body, the status is 400 iff studyData, studyHistory or senderType is falsy |
| ApiHandler.ValidRequestIs200 | api/generate-messages.js:81-117 | a POST with all three parameters truthy always gets 200. When the model call throws, the body is the default triple for that sender; otherwise the reply decides the body as `ReplyOutcomes` states |
| ApiHandler.ReplyOutcomes | api/generate-messages.js:102-112 | parsed non-null content gives 200 with its `messages`, unchecked. Empty, unparsable or null content gives 200 with the sender's defaults |
| ApiHandler.DefaultsAreTyped | api/generate-messages.js:53-67 | the default triples are parent encouraging/specific_praise/loving and teacher encouraging/instructional/motivational |
| Dashboard.ContinueDays | src/components/Dashboard.tsx:163-192 | the streak `k` is such that every day in (today-k, today] has a record and day today-k has none |
| Dashboard.ContinueDaysZero | src/components/Dashboard.tsx:163-191 | the streak is 0 exactly when today has no record, which includes the empty list |
| Dashboard.CatalogIndex | src/components/Dashboard.tsx:195-201 | a subject's place in the fixed catalogue, or 5 when it is not listed |
| Dashboard.SubjectStatsMembers | src/components/Dashboard.tsx:194-219 | a card is listed iff it is the catalogue subject's stat and that subject has questions |
| Dashboard.SubjectStatsOrder | src/components/Dashboard.tsx:194-219 | cards come in the order aptitude, japanese, math, science, social |
| Dashboard.StatForFacts | src/components/Dashboard.tsx:203-207 | a card's totals are the subject's sums, its accuracy is their rounded percentage, and that percentage is within [0, 100] on valid rows |
| Dashboard.SubjectStatsTotals | src/components/Dashboard.tsx:204-207 | every listed card has questions, sums over its subject's records, and a rounded accuracy in [0, 100] |
| Dashboard.SubjectStatsCoverage | src/components/Dashboard.tsx:203-218 | a catalogue subject has a card iff some record is of that subject |
| Dashboard.StudyDaysFacts | src/components/Dashboard.tsx:223-232 | the distinct record days, latest first, each once, and only days that have records |
| Dashboard.RecentDatesFacts | src/components/Dashboard.tsx:232 | at most 5 days, strictly decreasing, each with a record |
| Dashboard.RecentDatesLatest | src/components/Dashboard.tsx:223-232 | the recent days are the latest record days: no omitted day is later than a listed one |
| Dashboard.Preferred | src/components/Dashboard.tsx:237-243 | the chosen feeling has the maximal count; ties go to good, then normal, then hard |
| Lists.SortByStable | src/components/Dashboard.tsx:241-243 | the sort is stable: elements that compare equal come out in their input order |
| Dashboard.DominantFeeling | src/components/Dashboard.tsx:241-243 | sorting the three counts stably and taking the head gives the preferred feeling |
| Dashboard.CountEmotions | src/components/Dashboard.tsx:237-240 | the counting loop counts each feeling's records of the day |
| Dashboard.DayFeeling | src/components/Dashboard.tsx:236-244 | one day's feeling is the preferred feeling of its records' counts |
| Dashboard.RecentEmotions | src/components/Dashboard.tsx:221-247 | one entry per recent day, in order, each with the preferred feeling of that day's records |
| Dashboard.RecordsOnMembers | src/components/Dashboard.tsx:236 | a day's records are exactly the records with that date |
| Dashboard.RecentFeelingsFacts | src/components/Dashboard.tsx:221-247 | at most 5 entries, dates strictly decreasing, each with a record and a maximal feeling |
| Dashboard.LatestRecord | src/components/Dashboard.tsx:137-144 | the card shows a same-material, same-day record with the highest attempt, or the record itself |
| Dashboard.LatestRecordIsFirst | src/components/Dashboard.tsx:137-144 | when several such records share the highest attempt, the card shows the first of them in list order, as the stable descending sort leaves it in front |
| Dashboard.CardKeysFacts | src/components/Dashboard.tsx:146-157 | one card per distinct (day, subject, type) key of today's records, no key twice, each holding a record of its key |
| Dashboard.LatestIsLast | src/components/Dashboard.tsx:146-157 | a key's card holds the key's last record in list order |
| Dashboard.ProcessTodayRecords | src/components/Dashboard.tsx:112-161 | the loop's result equals the card function `TodayCards` |
| Dashboard.EntryFacts | src/components/Dashboard.tsx:119-144 | a card shows a record of its own key, with that key's attempt history |
| Dashboard.TodayCardHistory | src/components/Dashboard.tsx:115-157 | each card's history is its key's records dated no later, sorted by attempt |
| Dashboard.TodayCardsCover | src/components/Dashboard.tsx:115-157 | there is one card per distinct key, and every record of today has its key's card |
| Dashboard.MilestoneStages | src/components/Dashboard.tsx:362-365 | the milestone text follows the ≥17, ≥10 and ≥5 thresholds, and a longer streak never shows an earlier stage |
| Records.ByAttemptIsPreorder | src/components/FeedbackPage.tsx:85 | the attempt comparator is a total preorder |
| Records.HistoryRecords | src/components/FeedbackPage.tsx:78-85 | a history is never longer than the records |
| Records.HistoryRecordsFacts | src/components/FeedbackPage.tsx:78-85 | the history holds each same-key record dated no later, as often as in the input and nothing else, sorted by attempt |
| Records.HistoryRecordsBelong | src/components/Dashboard.tsx:119-134 | every history entry has the record's key and a date no later |
| Records.AttemptHistory | src/components/FeedbackPage.tsx:86-92 | one history line per history record |
| Records.AttemptHistoryOrder | src/components/FeedbackPage.tsx:86-92 | history lines ascend by attempt and are dated no later than the record |
| Records.HistoryLinesComeFromRecords | src/components/Dashboard.tsx:126-133 | the i-th line carries the i-th history record's counts and attempt |
| Records.OwnAttemptListed | src/components/FeedbackPage.tsx:78-92 | a record's own attempt is in its history |
| Records.FormatHistoryEnds | src/components/Dashboard.tsx:272-278 | the text is "" iff there is at most one attempt; otherwise it starts with the first `(c/t)` item and ends with the last |
| Records.RecordDates | src/components/FeedbackPage.tsx:120 | the record dates, in order |
| Records.SubjectTallyAbsent | src/components/FeedbackPage.tsx:124-131 | a subject with no records sums to 0/0 |
| Records.SubjectTallyBounds | src/components/FeedbackPage.tsx:124-131 | on valid rows a subject's correct sum is at most its total, and the total is positive iff the subject occurs |
| FeedbackPage.LaterFirstIsPreorder | src/components/FeedbackPage.tsx:163 | the date comparator `b - a` is a total preorder |
| FeedbackPage.LeadingRun | src/components/FeedbackPage.tsx:163-176 | the run is no longer than the list, and at least 1 when the list is not empty |
| FeedbackPage.LeadingRunIs | src/components/FeedbackPage.tsx:165-176 | a run of days one apart, stopped by a gap or by the end, is counted exactly |
| FeedbackPage.ContinuationDays | src/components/FeedbackPage.tsx:160-178 | the loop computes the leading run of the dates sorted latest first |
| FeedbackPage.ContinuationBounds | src/components/FeedbackPage.tsx:161-178 | 0 exactly for no dates, and never more than the number of dates |
| FeedbackPage.RunCountsDown | src/components/FeedbackPage.tsx:165-176 | within the run, the k-th day is k days before the first |
| FeedbackPage.LeadingRunSteps | src/components/FeedbackPage.tsx:165-176 | the run's days are one apart, and the day after the run is not |
| FeedbackPage.LatestFirst | src/components/FeedbackPage.tsx:163 | the sorted dates are a permutation with the latest first |
| FeedbackPage.ContinuationDaysOccur | src/components/FeedbackPage.tsx:163-176 | every day of the run, counted back from the latest date rather than from today, is a recorded date |
| FeedbackPage.StrictlyLatestFirst | src/components/FeedbackPage.tsx:120-163 | distinct dates sorted latest first strictly decrease |
| FeedbackPage.ContinuationStopsAtGap | src/components/FeedbackPage.tsx:163-176 | on distinct dates the day just before the run is not a recorded date |
| FeedbackPage.ToStudyData | src/components/FeedbackPage.tsx:134-146 | a fetched record keeps its comment exactly when the comment is non-empty |
| FeedbackPage.SubjectAccuracy | src/components/FeedbackPage.tsx:124-131 | the map's keys are exactly the subjects present, and each value is that subject's correct and total sums |
| FeedbackPage.StudyHistoryData | src/components/FeedbackPage.tsx:104-157 | a failed read gives the empty history. A good one gives the first five records, the number of distinct dates, the streak over them and the subject sums |
| FeedbackPage.StudyHistoryDataBounds | src/components/FeedbackPage.tsx:120-147 | 0 ≤ continuation ≤ distinct days ≤ rows; no days exactly for no rows; every subject's correct sum is between 0 and its total |
| FeedbackPage.ProcessStudyRecords | src/components/FeedbackPage.tsx:73-101 | same length and order as the input, each record with its attempt history |
| FeedbackPage.ProcessedHistories | src/components/FeedbackPage.tsx:76-101 | each record's history contains its own attempt, ascends by attempt, and is dated no later |
| FeedbackPage.RecordFeedbacks | src/components/FeedbackPage.tsx:341-343 | exactly the feedbacks for the record, each as often as in the list |
| FeedbackPage.CommentForm.SendComment | src/components/FeedbackPage.tsx:273-305 | a blank comment alerts and changes nothing. A failed insert changes no feedback. A good insert prepends a feedback with the trimmed text and resets the form |
| FeedbackPage.SentCommentHeadsFeedback | src/components/FeedbackPage.tsx:296-305 | the sent comment is the first of the record's feedbacks afterwards |
| HistoryPage.Combine | src/components/HistoryPage.tsx:50-53 | one item per record |
| HistoryPage.CombinePairs | src/components/HistoryPage.tsx:50-53 | the i-th item is the i-th record with exactly its feedbacks, in their multiplicity |
| HistoryPage.FilterBySubjectKeeps | src/components/HistoryPage.tsx:115-120 | 'all' keeps everything; a subject keeps exactly its items, in order and in multiplicity |
| HistoryPage.SortLeIsPreorder | src/components/HistoryPage.tsx:123-145 | the comparator, in either order and for any key, is a total preorder |
| HistoryPage.FilteredAndSortedFacts | src/components/HistoryPage.tsx:114-146 | the result is a permutation of the filtered items, ascending by key for 'asc' and descending for 'desc' |
| HistoryPage.DateKeyOrder | src/components/HistoryPage.tsx:127-129 | the date key orders by study day |
| HistoryPage.AccuracyKeyOrder | src/components/HistoryPage.tsx:130-133 | the accuracy key orders by correct/total, cross-multiplied |
| HistoryPage.EmotionKeyOrder | src/components/HistoryPage.tsx:135-138 | hard < normal < good |
| HistoryPage.HistoryView.LoadHistoryData | src/components/HistoryPage.tsx:27-61 | two good reads give the join; a failed read keeps the data and sets the error |
| HistoryPage.HistoryView.ToggleSort | src/components/HistoryPage.tsx:148-155 | the same key flips the order; a new key is chosen with 'desc' |
| HistoryPage.HistoryView.SortIcon | src/components/HistoryPage.tsx:157-160 | ↕️ iff the key is inactive, ↑ iff active ascending, ↓ iff active descending |
| HistoryPage.SubjectLabelCases | src/components/HistoryPage.tsx:64-84 | five distinct labels and icons, no listed icon is 📚, and other codes show the code and 📚. The reads as written agree for every code that is not an `Object.prototype` name, and give the inherited member for those names |
| HistoryPage.OtherLabelCases | src/components/HistoryPage.tsx:86-97 | 'class' is 授業 and everything else 宿題; the three feelings have distinct labels; other feelings pass through. The read as written agrees for every feeling that is not an `Object.prototype` name, and gives the inherited member for those names |
| HistoryPage.FeedbackText | src/components/HistoryPage.tsx:248-251 | a non-empty message is shown as it is |
| HistoryPage.FeedbackTextOfValid | src/components/HistoryPage.tsx:248-251 | for valid feedback the text is empty iff the message is absent or empty and there is no reaction |
| HistoryPage.FlattenFacts | src/components/HistoryPage.tsx:269-270 | one entry per feedback, each paired with its own record |
| HistoryPage.FlattenComplete | src/components/HistoryPage.tsx:269-270 | every feedback of every item appears |
| HistoryPage.FeedbackTimelineFacts | src/components/HistoryPage.tsx:269-271 | the timeline is a permutation of the flattened list, newest first |
| TeacherRecords.StudentName | src/components/TeacherRecordsPage.tsx:46-49 | the learner's id, or 不明 when it is missing or empty |
| TeacherRecords.Format | src/components/TeacherRecordsPage.tsx:46-50 | one row per record, in order, with its name |
| TeacherRecords.FilteredFacts | src/components/TeacherRecordsPage.tsx:71-83 | a row is kept iff every non-empty filter passes, in its multiplicity; empty filters keep everything |
| TeacherRecords.KeepAll | src/components/TeacherRecordsPage.tsx:71-83 | with all filters empty, the rows are kept unchanged |
| TeacherRecords.CompareFacts | src/components/TeacherRecordsPage.tsx:84-108 | the comparator returns -1, 0 or 1, is antisymmetric and sign-swapped for 'desc'; 0 iff the keys tie; -1 on 'asc' iff below |
| TeacherRecords.SortLeIsPreorder | src/components/TeacherRecordsPage.tsx:84-108 | the comparator defines a total preorder |
| TeacherRecords.FilteredAndSortedFacts | src/components/TeacherRecordsPage.tsx:71-108 | the shown rows are a permutation of the filtered rows, in the chosen direction |
| TeacherRecords.AccuracyKeyOrder | src/components/TeacherRecordsPage.tsx:88-91 | the accuracy key orders by correct/total, cross-multiplied |
| TeacherRecords.OtherKeyOrder | src/components/TeacherRecordsPage.tsx:91-99 | date by day; name and subject by code units |
| TeacherRecords.UniqueSortedFacts | src/components/TeacherRecordsPage.tsx:139-140 | every value once, nothing else, sorted by code units |
| TeacherRecords.StudentNames | src/components/TeacherRecordsPage.tsx:139 | the rows' names, in order |
| TeacherRecords.SubjectCodes | src/components/TeacherRecordsPage.tsx:140 | the rows' subject codes, in order |
| TeacherRecords.LabelCases | src/components/TeacherRecordsPage.tsx:110-132 | distinct subject and feeling labels; other codes pass through. The reads as written agree for every code that is not an `Object.prototype` name, and give the inherited member for those names |
| TeacherRecords.EmotionText | src/components/TeacherRecordsPage.tsx:168 | よくできた iff good, 普通 iff normal, 難しかった otherwise |
| TeacherRecords.CsvCells | src/components/TeacherRecordsPage.tsx:158-170 | one cell per header column, eleven in all |
| TeacherRecords.CsvTable | src/components/TeacherRecordsPage.tsx:144-172 | the header, then one row of cells per shown record, in order |
| TeacherRecords.ExportReadsBack | src/components/TeacherRecordsPage.tsx:144-174 | the corrected export reads back, by a standard CSV reader, as exactly the header and the records' cells |
| TeacherRecords.ExportAsWrittenUnreadable | src/components/TeacherRecordsPage.tsx:143-174 | the page's export as written of a record commented `a"b`, whose other cells hold no double quote, is not read back at all |
| TeacherRecords.ExportAsWrittenAgrees | src/components/TeacherRecordsPage.tsx:172-174 | when no cell holds a double quote, the export as written equals the corrected export |
| TeacherRecords.AccuracyColourThresholds | src/components/TeacherRecordsPage.tsx:407-413 | green iff the exact percentage is ≥ 80, yellow iff it is in [60, 80), red otherwise |
| TeacherRecords.PercentAtLeast | src/components/TeacherRecordsPage.tsx:408 | `c / t * 100 >= p` is the cross-multiplied test |
| TeacherRecords.ColourAgreesWithShownPercent | src/components/TeacherRecordsPage.tsx:407-413 | green rows show at least 80% and red rows at most 60% |
| TeacherRecords.ShownEightyCanBeYellow | src/components/TeacherRecordsPage.tsx:407-413 | 35 of 44 is shown as 80% yet coloured yellow |
| TeacherRecords.TeacherView.FetchRecords | src/components/TeacherRecordsPage.tsx:33-58 | a good read formats the rows (null as none); a failed read keeps them and sets the error |
| TeacherRecords.TeacherView.HandleSort | src/components/TeacherRecordsPage.tsx:61-68 | the same field flips the direction; a new field is chosen with 'desc' |
| TeacherRecords.TeacherView.SortIcon | src/components/TeacherRecordsPage.tsx:134-137 | ↕️ iff the field is inactive, ↑ iff active ascending, ↓ iff active descending |
| TeacherRecords.TeacherView.Menus | src/components/TeacherRecordsPage.tsx:139-140 | the menus are no longer than the records |
| Csv.ReadQuotedEscape | src/components/TeacherRecordsPage.tsx:172 | a doubled-quote cell reads back as the cell |
| Csv.ReadFieldQuote | src/components/TeacherRecordsPage.tsx:172 | a quoted, escaped cell reads back as the cell and leaves the rest |
| Csv.ReadRecordLine | src/components/TeacherRecordsPage.tsx:172 | a line of quoted cells reads back as its cells |
| Csv.ReadAllContent | src/components/TeacherRecordsPage.tsx:172-174 | escaped CSV content reads back as its rows |
| Csv.ReadRecordQuoteLast | src/components/TeacherRecordsPage.tsx:172-173 | a line quoted as written whose last cell is `a"b` reads only up to the `a`, leaving `b"` |
| Csv.ContentQuoteLastUnreadable | src/components/TeacherRecordsPage.tsx:172-174 | a text quoted as written whose last cell is `a"b`, all other cells free of quotes, is not read back at all |
| Csv.QuoteInCellBreaksReading | src/components/TeacherRecordsPage.tsx:172 | with the quoting as written, the cell `a"b` makes the content unreadable |
| Csv.EscapeWithoutQuotes | src/components/TeacherRecordsPage.tsx:172 | a cell without quotes is quoted the same way either way |
| Csv.ContentWithoutQuotes | src/components/TeacherRecordsPage.tsx:172-174 | content without quotes is the same either way |
| Reflections.Find | src/components/ReflectionPage.tsx:63 | a found reflection is in the list and has the date |
| Reflections.FindFirst | src/components/ReflectionPage.tsx:63 | found iff some reflection has the date, and then it is the first such |
| Reflections.NullIfBlank | src/components/ReflectionPage.tsx:71-83 | a blank improvement note is null; otherwise it is the non-empty trimmed text |
| Reflections.UpdateContentChanges | src/components/ReflectionPage.tsx:67-75 | only the rows with the id change, and only their content and improvement fields |
| Reflections.UpdateCommentChanges | src/components/ReflectionPage.tsx:114-120 | only the rows with the id change, and only their teacher comment |
| Reflections.NewestFacts | src/components/ReflectionPage.tsx:34-38 | the listing is a permutation of the rows, latest date first |
| Reflections.IdsKept | src/components/ReflectionPage.tsx:63-87 | updates and an insert with the next id keep row ids below the counter |
| Reflections.ReflectionPage.LoadReflections | src/components/ReflectionPage.tsx:29-48 | a good read lists the rows latest first; a failed read keeps the list and sets the error |
| Reflections.ReflectionPage.SubmitReflection | src/components/ReflectionPage.tsx:50-101 | an empty date or blank content sets the error and writes nothing. An existing date updates only that row; otherwise exactly one row is inserted with the trimmed texts. On success the fields reset and the date stays |
| Reflections.ReflectionPage.AddTeacherComment | src/components/ReflectionPage.tsx:104-132 | a blank comment is refused; otherwise only the row's teacher comment changes, and editing ends |
| Reflections.ReflectionPage.StartEditing | src/components/ReflectionPage.tsx:322 | editing starts on the row, and nothing else changes |
| Reflections.ReflectionPage.CancelEditing | src/components/ReflectionPage.tsx:310-313 | editing ends and the comment draft is cleared |
| Reflections.ReflectionPage.OverwriteWarning | src/components/ReflectionPage.tsx:202-206 | the warning shows iff a listed reflection has the selected date |
| Reflections.OverwriteKeepsRow | src/components/ReflectionPage.tsx:63-75 | overwriting keeps the row count and its id |
| Reflections.NewDayAddsRow | src/components/ReflectionPage.tsx:76-87 | a new date appends exactly one row with the trimmed content |
| RoleAuth.KeysInjective | src/lib/roleAuth.ts:17-48 | the password and session keys of two pairs are equal iff the user and the role are |
| RoleAuth.ToInt32 | src/lib/roleAuth.ts:10-11 | the result is a signed 32-bit value congruent to the input modulo 2^32 |
| RoleAuth.HashFold | src/lib/roleAuth.ts:6-14 | the hash stays in the signed 32-bit range |
| RoleAuth.StepIsFold | src/lib/roleAuth.ts:10-11 | `((h << 5) - h) + c` followed by `& hash` is int32(31h + c) |
| RoleAuth.SimpleHash | src/lib/roleAuth.ts:6-14 | the loop's hash is the fold `h := int32(31h + unit)` from 0 over the UTF-16 units |
| RoleAuth.HashTextSame | src/lib/roleAuth.ts:13 | two hash strings are equal iff the folds are |
| RoleAuth.HashCollision | src/lib/roleAuth.ts:6-14 | "Aa" and "BB" hash alike |
| RoleAuth.SetThenVerify | src/lib/roleAuth.ts:17-37 | after setting a password it is set and it verifies |
| RoleAuth.VerifyAfterSet | src/lib/roleAuth.ts:35-36 | after setting, an attempt verifies iff its hash equals the password's |
| RoleAuth.CollisionVerifies | src/lib/roleAuth.ts:35-36 | a password "Aa" accepts "BB" |
| RoleAuth.ResetClears | src/lib/roleAuth.ts:30-43 | nothing verifies when no hash is stored; after reset nothing is set and nothing verifies |
| RoleAuth.OtherPairsUntouched | src/lib/roleAuth.ts:23-43 | setting or resetting one pair leaves every other pair's entry as it was |
| RoleAuth.SessionFlags | src/lib/roleAuth.ts:48-61 | open after set, closed after clear; other pairs are untouched |
| RoleAuth.IsPasswordSet | src/lib/roleAuth.ts:17-20 | true iff the key is stored |
| RoleAuth.SetPassword | src/lib/roleAuth.ts:23-27 | the key now maps to the password's hash, and nothing else changes |
| RoleAuth.VerifyPassword | src/lib/roleAuth.ts:30-37 | true iff a non-empty hash is stored and equals the attempt's |
| RoleAuth.ResetPassword | src/lib/roleAuth.ts:40-43 | the key is removed, and nothing else changes |
| RoleAuth.SetAuthSession | src/lib/roleAuth.ts:48-51 | the session key maps to "authenticated" |
| RoleAuth.IsAuthenticated | src/lib/roleAuth.ts:53-56 | true iff the session key maps to "authenticated" |
| RoleAuth.ClearAuthSession | src/lib/roleAuth.ts:58-61 | the session key is removed |
| BrowserStorage.Storage.GetItem | src/lib/roleAuth.ts:19 | `getItem` answers the stored value, or null for a missing key |
| BrowserStorage.Storage.SetItem | src/lib/roleAuth.ts:26 | `setItem` maps the key to the value, and nothing else changes |
| BrowserStorage.Storage.RemoveItem | src/lib/roleAuth.ts:42 | `removeItem` drops the key, and nothing else changes |
| UseAuth.LoggedIn | src/lib/useAuth.ts:24-32 | signed in as the user, with no role |
| UseAuth.AuthHook.constructor | src/lib/useAuth.ts:5-9 | the initial state: not signed in, no user, no role |
| UseAuth.AuthHook.Restore | src/lib/useAuth.ts:11-22 | a non-empty saved copy that parses is adopted; an unparsable one is removed and the state kept |
| UseAuth.AuthHook.Login | src/lib/useAuth.ts:24-32 | the new state is signed in as the user with no role, and it is saved |
| UseAuth.AuthHook.SelectRole | src/lib/useAuth.ts:34-41 | only the role changes, and the new state is saved |
| UseAuth.AuthHook.Logout | src/lib/useAuth.ts:43-51 | back to signed out, with the saved copy removed |
| UseAuth.RestoreAfterSave | src/lib/useAuth.ts:11-41 | what login or selectRole saved is restored on the next mount when parse inverts stringify |
| UseAuth.RestoreAfterLogout | src/lib/useAuth.ts:11-51 | after logout the next mount stays signed out |
| UseAuth.RestoreIdempotent | src/lib/useAuth.ts:11-22 | restoring twice is restoring once |
| UseAuth.SelectRoleKeepsUser | src/lib/useAuth.ts:34-41 | the sign-in flag and the user are kept |
| UseAuth.AuthKeyApart | src/lib/useAuth.ts:24-51 | saving or removing the auth copy leaves every role password as it was |
| Members.FromEntriesKeys | src/lib/auth.ts:14-31 | an object literal's keys are its entries' keys |
| Members.FromEntriesSize | src/lib/auth.ts:14-31 | distinct keys give one property per entry |
| Members.FifteenMembers | src/lib/auth.ts:14-31 | the table has 15 members |
| Members.EntriesKeyedById | src/lib/auth.ts:15-30 | each entry's id is its key, and no key is an inherited property name |
| Members.LookupAsWritten | src/lib/auth.ts:34 | `USERS[id]` finds an own member iff id is a key, and an inherited property iff id is an `Object.prototype` name |
| Members.ValidateUserAsWritten | src/lib/auth.ts:33-35 | `USERS[id] \|\| null` is null iff the lookup is undefined |
| Members.ValidateUser | src/lib/auth.ts:33-35 | the member iff id is a key, otherwise null |
| Members.FoundIsAskedFor | src/lib/auth.ts:15-35 | a member found has the id asked for |
| Members.ConstructorPassesAsWritten | src/lib/auth.ts:33-35 | "constructor" is no member, yet the lookup as written returns a non-null non-member |
| Members.AsWrittenAgreesElsewhere | src/lib/auth.ts:33-35 | away from inherited names, the lookup as written and the own-key lookup agree |
| PasswordModals.RoleLabel | src/components/PasswordInputModal.tsx:53-55 | 保護者 iff parent, 指導者 iff teacher |
| PasswordModals.SetupErrorCases | src/components/PasswordSetupModal.tsx:23-36 | in order: blank, then fewer than 4 UTF-16 units before trimming, then mismatch. The first failing check names the error, and the password passes iff none fails |
| PasswordModals.SetupDialog.HandleSubmit | src/components/PasswordSetupModal.tsx:20-52 | a failed check sets its error and stores nothing. Otherwise the hash is stored and onSuccess runs, with no session set; a storage throw sets the failure message |
| PasswordModals.SetupThenSignIn | src/components/PasswordSetupModal.tsx:38-45 | a password accepted at setup is accepted at sign-in |
| PasswordModals.BlankRefused | src/components/PasswordInputModal.tsx:23-26 | a blank entry is refused whatever the store holds |
| PasswordModals.ResetRefusesAll | src/components/PasswordInputModal.tsx:48-51 | after a reset no entry is accepted |
| PasswordModals.InputDialog.HandleSubmit | src/components/PasswordInputModal.tsx:20-46 | blank is refused without reading the store. onSuccess runs iff the password verifies; otherwise the wrong-password error is set; a throw sets the failure message |
| PasswordModals.InputDialog.HandlePasswordReset | src/components/PasswordInputModal.tsx:48-51 | the stored hash is removed, so no password is set, and onCancel runs |
| StudyForms.SubmitErrorCases | app/page.tsx:33-44 | "required" iff a required field is empty. The save is accepted iff all are filled and correct ≤ total, or one of them is NaN |
| StudyForms.SubmitErrorOfCounts | app/page.tsx:38-44 | for written integers, the save is accepted iff correct ≤ total |
| StudyForms.ShownAccuracyOfCounts | app/page.tsx:169-175 | valid counts show the rounded percentage, within [0, 100] |
| StudyForms.StudyRecordPage.HandleSave | app/page.tsx:32-64 | a refused save alerts its message and keeps every field; an accepted save alerts success and clears all five fields |
| StudyForms.WithFieldOnlyThat | src/components/StudyRecordForm.tsx:44-46 | an input change sets its field and no other |
| StudyForms.StudyRecordForm.HandleInputChange | src/components/StudyRecordForm.tsx:44-46 | only that field of the record changes |
| StudyForms.StudyRecordForm.HandleSubmit | src/components/StudyRecordForm.tsx:48-75 | a refused submit alerts and never starts submitting; an accepted one ends with submitting off, success on and the record kept |
| StudyForms.StudyRecordForm.SuccessTimeout | src/components/StudyRecordForm.tsx:78-87 | the message goes and the record is cleared |
| StudyForms.ChoicesAgainstTable | src/components/StudyRecordForm.tsx:31-42 | the page offers the table's values. The component's subjects are among them, without aptitude; of its feelings only "normal" is accepted by the table |
| Schema.ContentCheckIff | scripts/setup-database.ts:64-68 | a feedback passes the content check iff it has a reaction or a message |
| Percent.RoundPercentBounds | src/lib/openai.ts:103 | `Math.round(c/t*100)` is within half a point of the exact percentage |
| Percent.RoundPercentUnique | src/lib/openai.ts:103 | it is the only integer within the round-half-up interval |
| Percent.RoundPercentRange | src/components/Dashboard.tsx:207 | valid counts give a value in [0, 100]: 100 when all correct, 0 when none |
| Percent.RoundPercentMonotone | src/components/HistoryPage.tsx:130-133 | a higher ratio never rounds lower |
| Percent.RoundPercentExamples | src/lib/openai.ts:103 | 7/8 gives 88 and 18/20 gives 90, among others |
| Percent.Accuracy | app/page.tsx:172 | a finite value iff the total is not 0; 0/0 is NaN and c/0 with c > 0 is Infinity |
| Percent.AccuracyOf | app/page.tsx:169-175 | an unparsable count gives NaN |
| Text.TrimEmptyIffBlank | src/components/PasswordSetupModal.tsx:23 | `!s.trim()` holds iff the text is all whitespace |
| Text.ParseIntOfIntToString | app/page.tsx:38-39 | `parseInt` reads back any written integer |
| Text.Utf16Append | src/components/PasswordSetupModal.tsx:28 | the UTF-16 length of a concatenation is the sum of the lengths |
| Json.Get | src/lib/openai.ts:79 | reading a property of null throws; of an object, finds the field; of anything else, is undefined |

## Left out

- Database reads and writes are outcomes passed in: a `Result`, or a `writeOk`/`readOk` flag. Only the row changes the code asks for are modelled.
- `fetch`, its abort and 15 s timeout, and the OpenAI call are an abstract outcome.
- The `console.log` calls are not modelled.
- `alert` becomes a returned message.
- `setTimeout` delays become separate steps (`StudyRecordForm.SuccessTimeout`).
- The `setInterval` refresh and React re-rendering are not modelled.
- The `loading`, `sending` and `isSubmitting` flags are modelled only where a contract speaks of them.
- Clock and locale: `Date.now()`, `new Date()`, `toISOString` and `toLocaleDateString` are not modelled, nor the JST helpers of `src/lib/utils.ts`. "Today" and the seed are parameters, and dates are day numbers. Locale date texts in the CSV are function parameters.
- Dashboard.ContinueDays: counts back over whole day numbers. It does not model the mix of UTC (`toISOString`) and local dates in the date walk, which can shift the streak by a day near midnight.
- Floating point: accuracies are exact integers or rationals (`(200c + t) div 2t`, cross-multiplication, `real` sort keys). Percentages that a float rounds differently from the exact value at a tie are not captured.
- The averaged-percentage statistics of the teacher page (TeacherRecordsPage.tsx:455-469) are not modelled.
- Records with a zero total: the history and teacher sort keys are stated for positive totals only. In the source a zero total gives `NaN` when no answer is correct and `Infinity` otherwise; the order of those keys is not modelled.
- HistoryPage.Key: an emotion outside good/normal/hard has an `undefined` rank in the source (`NaN` comparisons). The model gives it the rank -1, below `hard`.
- Dashboard.RecentEmotions: requires every feeling to be good, normal or hard, as the table constraint guarantees. The source's counter object would grow a fourth key for another value.
- Dashboard.ProcessTodayRecords: the cards are keyed by the triple (study day, subject, content type). The source keys its `Map` by the string `${study_date}-${subject}-${content_type}`, which gives one key to two triples when a subject holds a `-` (subject `a-b` with type `c`, subject `a` with type `b-c`). The subject CHECK allows only five codes, none holding a `-`, and the study date is a fixed-width `YYYY-MM-DD`, so on table rows the string and the triple group the records alike. The model does not capture the merge for other subjects.
- Dashboard.ProcessTodayRecords: the loop keeps the latest record per key and builds the cards after the loop. The source builds each card inside the loop. The cards are pure functions of the records, so the result is the same.
- The 14-day and 30-day read windows of the feedback page are part of the database query, so the model receives the rows already read.
- The order in which the database returns ties is not modelled: the model sorts stably from the given order.
- `toLowerCase` (Unicode case mapping), `JSON.parse` and `JSON.stringify` are function parameters.
- UseAuth.AuthHook.Restore: adopts any value `parse` returns. Whether a parsed value has the right shape is decided by the parameter.
- `localStorage` and `sessionStorage` exceptions (quota, disabled storage) are modelled only by the dialogs' `storageOk` flag.
- PasswordModals.SetupErrorCases: the minimum length counts UTF-16 units of the untrimmed password, as written. No separate lemma states that untrimmed spaces count towards it.
- `sendReaction` and `sendPersonalizedFeedback` on the feedback page, and the combined tab of the history page, are not modelled. They are database writes followed by the same prepend as `sendComment`, or a presentation-only merge.
- Role gating and navigation between pages (`App.tsx`, `RoleSelectPage.tsx`, `LoginPage.tsx`, `UserSwitcher.tsx`) and all markup are not modelled.
- The Supabase client (`src/lib/supabase.ts`) is not part of this model. Its row types are the datatypes of `Schema`.
- Schema: the CHECK constraints are modelled on the columns the logic reads. Identity, timestamps and defaults are not modelled.
- Object-literal lookups: the label and colour functions (`Messages.SubjectLabel`, `PersonalizedFeedback.TypeColor`, `PersonalizedFeedback.TypeLabel`, `HistoryPage.SubjectLabel`, `HistoryPage.SubjectIcon`, `HistoryPage.EmotionLabel`, `TeacherRecords.SubjectLabel`, `TeacherRecords.EmotionLabel`) read the table's own keys only. The read as written, `ObjectLiteral.ReadOr`, also finds the `Object.prototype` names; the label lemmas state where the two differ. The subjects and feelings come from rows the CHECK constraints restrict, so only a message type from the server reply can be such a name (see Findings).
- FeedbackPage.SubjectAccuracy: the accumulator `subjectAccuracy[record.subject]` is modelled as a map. An `Object.prototype` name as subject would find an inherited member; the subject CHECK rules such a subject out. The same holds for the dashboard's per-subject and per-feeling counters.
- TeacherRecords.ExportCsv: the model's export doubles the quotes inside cells. The source's export, which does not, is kept as `ExportCsvAsWritten` (see Findings).

## Findings

| source | as written | input that shows it | evidently intended | confidence | as-written member | corrected member |
|---|---|---|---|---|---|---|
| src/components/TeacherRecordsPage.tsx:172 | each cell is wrapped as `"${cell}"` without doubling quotes inside it | a comment cell `a"b` | a CSV whose cells read back as written (quotes doubled, as in RFC 4180 section 2) | high; not executed | TeacherRecords.ExportAsWrittenUnreadable | TeacherRecords.ExportReadsBack |
| src/lib/auth.ts:34 | `USERS[memberId] \|\| null` reads the property through the prototype chain | member number "constructor" | only the table's own member numbers are accepted | high; not executed | Members.ConstructorPassesAsWritten | Members.ValidateUser |
| src/components/PersonalizedFeedback.tsx:304-315 | `colors[type] \|\| gray` and `labels[type] \|\| type` read through the prototype chain, and the type comes unchecked from the server reply | message type `__proto__` | an unknown type is shown as its name, in gray | medium; not executed | PersonalizedFeedback.ProtoTypeAsWritten | PersonalizedFeedback.TypeLabelCases |

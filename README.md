# School dashboard core, modelled in Dafny

A model of the core of a school management dashboard: a React front end
over a hosted Postgres backend. Five of its seven services and twelve
pages are modelled.

- The services cover attendance, exams, fees, students and syllabus.
- The pages cover attendance, academics, exam lists and exam details,
  syllabus coverage, fees, events, students (summary cards, table and
  profile), users and the signed-in user's profile.

The backend tables that the services read and write are modelled in two
ways:

- A query result is an input value: a `Result` that is either the rows or
  the error message.
- A table that the core writes (attendance, exam marks, fee records and
  the students' fee status) is a class with a `map` field keyed by the
  table's conflict key. Its methods state the new map in terms of the old.

Each page is a class whose fields are the page's React state. Each
handler is a method that states the page's whole new state. A handler's
inputs are what the backend answered, as parameters: the fetched rows,
or the error thrown. The pure computations are functions with lemmas
about them. These include the filters, the statistics, the rounding, the
date keys, the calendars, the sort, the grade bands and the class-name
thresholds.

Files, one Dafny module each:

- The shared modules:
  - `types.dfy` holds the records of `src/types`.
  - `numeric.dfy` holds `Math.round` and one-decimal rounding.
  - `seqs.dfy` holds filter, de-duplication in first-appearance order and
    removal.
  - `tables.dfy` holds the keyed upsert and the last-wins index that a
    `Map` built with `forEach`/`set` produces.
  - `text.dfy` holds lower/upper case, `includes`, split/join, trimming,
    number formatting, zero padding, date keys and string order.
  - `selection.dfy` holds the "select the first option when nothing is
    selected" rule shared by two pages.
- One module per service: `attendance_service.dfy`, `exam_service.dfy`,
  `fee_service.dfy`, `student_service.dfy` and `syllabus_service.dfy`.
- One module per page:
  - `attendance_management.dfy`, `academics_management.dfy`;
  - `exam_management_view.dfy`, `exam_details_view.dfy`;
  - `syllabus_coverage_view.dfy`, `fee_management.dfy`;
  - `event_management.dfy`, `student_management.dfy`;
  - `student_table.dfy`, `student_profile.dfy`;
  - `admin_management.dfy`, `profile_management.dfy`.

JavaScript numbers are modelled as follows:

- Marks, averages and percentages with decimals are `real`.
- Counts, amounts and attendance figures are `int`.
- `Math.round(x)` is `floor(x + 1/2)`.
- `Math.round(x * 10) / 10` is one-decimal rounding.

A division whose divisor can be zero in the source gives a non-finite
number there (`Infinity` or `NaN`). The model writes that case out:
either as an `Option` whose `None` is the non-finite value, or, where the
code only compares the quotient, as the comparison's IEEE outcome.

## Model

| member | source | states |
|---|---|---|
| Numeric.Round | src/services/studentService.ts:71 | `Math.round`: the integer within one half of x, ties rounded up |
| Numeric.Round1 | src/services/attendanceService.ts:182 | `Math.round(x * 10) / 10` is a whole number of tenths (`OneDecimal`) within 0.05 of x |
| Numeric.Round1Unique | src/services/attendanceService.ts:182 | any whole number of tenths r with r − 0.05 <= x < r + 0.05 is Round1(x), so a bracket plus `OneDecimal` pins a figure to x rounded to one decimal |
| Numeric.RoundMono | src/services/syllabusService.ts:86 | rounding is monotone |
| Numeric.RoundInt | src/services/syllabusService.ts:86 | rounding an integer gives it back |
| Numeric.Round1Bounds | src/services/attendanceService.ts:182 | one-decimal rounding keeps a value inside integer bounds |
| Numeric.RoundPercent | src/services/studentService.ts:71 | integer form of `Math.round(p / t * 100)`, bracketed exactly |
| Numeric.RoundPercentIsRound | src/services/studentService.ts:71 | the integer form equals `Math.round(p / t * 100)` |
| Numeric.RoundPercentBounds | src/services/syllabusService.ts:86 | for 0 <= p <= t the percentage is 0..100, 100 when p == t and 0 when p == 0 |
| Numeric.RoundDiv | src/services/syllabusService.ts:108 | integer form of `Math.round(a / n)`, bracketed exactly |
| Numeric.RoundDivIsRound | src/services/syllabusService.ts:108 | the integer form equals `Math.round(a / n)` |
| Numeric.RoundDivBounds | src/services/syllabusService.ts:108 | a rounded quotient of a sum of n values in lo..hi stays in lo..hi |
| Numeric.RoundedMean | src/services/syllabusService.ts:100-108 | an empty list gives 0; otherwise `Math.round(sum / n)`, bracketed exactly |
| Numeric.RoundedMeanBounds | src/services/syllabusService.ts:100-108 | the rounded mean of values in lo..hi is in lo..hi |
| Numeric.SumBounds | src/services/syllabusService.ts:103-108 | n values in lo..hi sum to between n·lo and n·hi |
| Numeric.SumRealBounds | src/services/examService.ts:183 | the same for real values |
| Numeric.MeanBounds | src/services/examService.ts:182-184 | the mean of values in lo..hi is in lo..hi |
| Seqs.Filter | src/services/attendanceService.ts:174 | `filter`: no longer than its input, every element satisfies the predicate, and the elements keep their order |
| Seqs.Reject | src/components/StudentManagement.tsx:40 | the complement of a filter, with the same guarantees |
| Seqs.FilterMembers | src/services/attendanceService.ts:174 | x is kept exactly when it is in the input and satisfies the predicate |
| Seqs.FilterAll | src/components/SyllabusCoverageView.tsx:140-150 | a predicate true everywhere keeps the whole input |
| Seqs.FilterPartition | src/services/feeService.ts:124-127 | a filter and its complement split the input, as multisets and in length |
| Seqs.SubseqMembers | src/services/attendanceService.ts:174 | an element of a subsequence is an element of the sequence |
| Seqs.Without | src/components/EventManagement.tsx:605 | `filter(x => x !== v)`: v is gone, every other element stays |
| Seqs.IndexOf | src/services/attendanceService.ts:197 | the first position of x |
| Seqs.Distinct | src/services/attendanceService.ts:197 | `[...new Set(xs)]`: the same members, no duplicates, never longer |
| Seqs.IndexOfPrefix | src/services/attendanceService.ts:197 | first positions of members of a prefix are the same as in the whole |
| Seqs.DistinctOrder | src/services/attendanceService.ts:197 | `Set` keeps first-appearance order |
| Seqs.DistinctNoDups | src/services/attendanceService.ts:197 | a list without duplicates passes through `Set` unchanged |
| Tables.LastWithSpec | src/services/attendanceService.ts:60-63 | the last element with a key: none exactly when no element has that key, otherwise the element at the largest such index |
| Tables.BuildIndex | src/services/attendanceService.ts:60-63 | the `forEach`/`Map.set` loop: a key is in the map exactly when some element has it, and maps to the last such element |
| Tables.Get | src/services/attendanceService.ts:67 | `Map.get`: a value exactly when the key is present |
| Tables.WriteAllSpec | src/services/attendanceService.ts:136-140 | writing a batch without duplicate keys: every batch key gets its row written over what was stored, and every other key is untouched |
| Tables.UpsertSpec | src/services/attendanceService.ts:136-144 | an upsert succeeds exactly when the batch has no duplicate conflict key; then it writes as above; otherwise the table is unchanged |
| Text.LowerChar | src/components/AdminManagement.tsx:56-58 | `toLowerCase` on a character: A-Z map to a-z, nothing else changes |
| Text.UpperChar | src/components/StudentTable.tsx:151-157 | `toUpperCase` on a character: a-z map to A-Z, nothing else changes |
| Text.Lower | src/components/AdminManagement.tsx:56-58 | `toLowerCase`: same length, character by character |
| Text.Upper | src/components/StudentTable.tsx:151-157 | `toUpperCase`: same length, character by character |
| Text.IncludesIsOccurrence | src/components/AdminManagement.tsx:56-58 | `includes` holds exactly when the needle occurs at some position |
| Text.IncludesEmpty | src/components/AdminManagement.tsx:56-58 | every string includes the empty string |
| Text.Split | src/components/StudentTable.tsx:151-157 | `split(sep)` gives at least one piece |
| Text.SplitJoin | src/components/StudentTable.tsx:151-157 | joining the pieces with the separator gives the string back, and no piece contains the separator |
| Text.SplitNoSep | src/components/StudentTable.tsx:151-157 | a string without the separator is one piece |
| Text.SplitCons | src/components/StudentTable.tsx:151-157 | splitting `a + sep + b` puts a first |
| Text.FirstChar | src/components/StudentTable.tsx:151-157 | `n[0]` joined into a string: at most one character, none for an empty word |
| Text.Take2 | src/components/StudentTable.tsx:151-157 | `slice(0, 2)`: at most two characters, a prefix, and a string of two or fewer unchanged |
| Text.HeadsAreWordStarts | src/components/StudentTable.tsx:151-157 | the first characters of the space-split words are the characters that follow a space or start the name |
| Text.InitialsSpec | src/components/StudentTable.tsx:151-157 | the initials are at most two characters, none a lower-case letter: the first two word starts, uppercased |
| Text.InitialsTwoWords | src/components/StudentTable.tsx:151-157 | "First Last" gives the two uppercased first letters |
| Text.NoSpaceWordStarts | src/components/StudentTable.tsx:151-157 | past its first character, a word without spaces adds no word start |
| Text.WordStartsNoSpaceTail | src/components/StudentTable.tsx:151-157 | a non-empty word without spaces has its first character as its only word start, and does not end in a space |
| Text.NoSpaceLast | src/components/StudentTable.tsx:151-157 | a non-empty word without spaces does not end in a space |
| Text.WordStartsAppend | src/components/StudentTable.tsx:151-157 | the word starts of a concatenation are those of each part, the second read after the first's last character |
| Text.TrimStart | src/components/SyllabusCoverageView.tsx:291 | `trim` on the left never lengthens the string |
| Text.TrimEnd | src/components/SyllabusCoverageView.tsx:291 | `trim` on the right never lengthens the string |
| Text.TrimStartEmpty | src/components/SyllabusCoverageView.tsx:291 | trimming on the left gives nothing exactly when the string is all whitespace |
| Text.TrimEndEmpty | src/components/SyllabusCoverageView.tsx:291 | a string already trimmed on the left is emptied on the right only when it is empty |
| Text.TrimEmptyIffAllSpace | src/components/SyllabusCoverageView.tsx:291 | `trim()` is empty exactly when every character is JavaScript whitespace |
| Text.TrimStartFixed | src/components/SyllabusCoverageView.tsx:291 | trimming on the left twice is trimming once |
| Text.ReplaceSpaceRunsNoSpace | src/components/FeeManagement.tsx:169 | `replace(/\s+/g, r)` with a space-free r leaves no whitespace |
| Text.ReplaceSpaceRunsIdentity | src/components/FeeManagement.tsx:169 | a string without whitespace is left as it is |
| Text.DigitChar | src/components/EventManagement.tsx:249 | a digit 0..9 as its character |
| Text.NatToString | src/components/EventManagement.tsx:249 | `String(n)`: at least one character, all decimal digits |
| Text.NatToStringRoundTrip | src/components/EventManagement.tsx:249 | reading the digits back gives the number |
| Text.NatToStringLength | src/components/EventManagement.tsx:249 | numbers below 10 have one digit, below 100 two |
| Text.Pad2Spec | src/components/EventManagement.tsx:249 | `String(n).padStart(2, '0')` for n < 100 is two digits that read back as n |
| Text.DateKeySpec | src/components/StudentProfile.tsx:256-258 | the date key is the year, a dash, two digits reading month + 1, a dash and two digits reading the day |
| Text.DateKeyDaysDistinct | src/components/EventManagement.tsx:249 | two different days of one month have different keys |
| Text.StrLessAsymmetric | src/components/StudentTable.tsx:93-120 | string `<` is asymmetric |
| Text.StrLessTotal | src/components/StudentTable.tsx:93-120 | of two different strings one is less |
| Text.StrLessTransitive | src/components/StudentTable.tsx:93-120 | string `<` is transitive |
| Selection.AutoSelected | src/components/AttendanceManagement.tsx:46-48 | a selected option stays; with none, the first option is chosen, or nothing when there are no options |
| AttendanceService.SheetRow | src/services/attendanceService.ts:66-77 | a student's row carries the student, the requested date and class; with no record it is 'absent' with empty id and timestamps, with a record it takes that record's status and id |
| AttendanceService.GetStudentsWithAttendance | src/services/attendanceService.ts:32-78 | exactly one row per class student, in student order, from the last record per student; an empty class gives no rows; each failed query gives its error message |
| AttendanceService.Marked | src/services/attendanceService.ts:81-126 | after marking, the (student, date) key has the new status; an existing row keeps its class, a new row gets the given class; every other key is untouched |
| AttendanceService.AttendanceTable.MarkAttendance | src/services/attendanceService.ts:81-126 | markAttendance: the table becomes the marked table and the stored row, with the new status, is returned; a failed lookup, update or insert writes nothing and returns "Failed to check existing attendance: ", "Failed to update attendance: " or "Failed to create attendance: " + its message |
| AttendanceService.BulkUpsertSpec | src/services/attendanceService.ts:129-145 | bulkMarkAttendance on (student_id, date): it succeeds exactly when no key repeats; then every given key holds its mark and other keys are untouched |
| AttendanceService.AttendanceTable.BulkMarkAttendance | src/services/attendanceService.ts:129-145 | the table becomes the upsert's result, or on an error stays as it was and the error is "Failed to save attendance: " + message |
| AttendanceService.AttendanceStatsOf | src/services/attendanceService.ts:174-182 | present count = number of 'present' records; absent count = students − present; the rate is 0 with no students, else present/total·100 to one decimal (a whole number of tenths within 0.05 of it) |
| AttendanceService.AttendanceStatsBounds | src/services/attendanceService.ts:174-182 | with no more records than students the absent count is non-negative and the rate is 0..100 |
| AttendanceService.GetAttendanceStats | src/services/attendanceService.ts:150-184 | getAttendanceStats with its two failure messages |
| AttendanceService.ClassList | src/services/attendanceService.ts:186-199 | getClassList: the distinct classes, every class present |
| AttendanceService.ClassListOrder | src/services/attendanceService.ts:197 | the classes come in first-appearance order |
| ExamService.GetExamById | src/services/examService.ts:40-55 | a found exam, null for not-found, otherwise "Failed to fetch exam: " + message |
| ExamService.SheetRow | src/services/examService.ts:131-145 | a student's mark row: the existing mark, or 0 marks and not absent with empty id and timestamps |
| ExamService.GetExamDetails | src/services/examService.ts:97-148 | one row per class student in order, from the last mark per student; 'Exam not found' and each failure message |
| ExamService.MarksToSave | src/services/examService.ts:150-158 | each input mark becomes a row of this exam with the same student, marks and absence |
| ExamService.SaveExamMarksSpec | src/services/examService.ts:150-167 | with distinct students the upsert on (exam_id, student_id) succeeds, stores each given mark, and leaves other exams and students untouched |
| ExamService.ExamMarksTable.SaveExamMarks | src/services/examService.ts:150-167 | the table becomes the upsert's result, or on an error stays as it was and the error is "Failed to save exam marks: " + message |
| ExamService.MarksValues | src/services/examService.ts:183 | the marks of the rows, in order |
| ExamService.StatsOf | src/services/examService.ts:180-189 | num_students is the number of present rows; the average is 0 with none, else the mean to one decimal (a whole number of tenths within 0.05 of it) |
| ExamService.StatsBounds | src/services/examService.ts:180-189 | with present marks in 0..total the average is in 0..total |
| ExamService.GetExamStats | src/services/examService.ts:169-190 | getExamStats, or "Failed to fetch exam stats: " + message |
| ExamService.AttachStats | src/services/examService.ts:26-36 | every exam gets its statistics, in order; the list fails exactly when some statistics call fails, and then with "Failed to fetch exam stats: " + the message of the first failing exam in list order |
| ExamService.GetAllExams | src/services/examService.ts:5-38 | getAllExams, or "Failed to fetch exams: " + message |
| ExamService.AvailableClasses | src/services/examService.ts:192-204 | the distinct classes, every class present |
| ExamService.GetAvailableSubjects | src/services/examService.ts:206-208 | the fixed list of eight subjects, none repeated; no query, so it cannot fail |
| StudentService.CalculateStudentAttendance | src/services/studentService.ts:51-76 | 0 on a failure or with no records, otherwise round(present/total·100); always 0..100; 100 exactly when all records are present, 0 when none is |
| StudentService.AttachAttendance | src/services/studentService.ts:16-25 | every student, in order, with its attendance recomputed |
| StudentService.GetAllStudents | src/services/studentService.ts:5-27 | getAllStudents, or "Failed to fetch students: " + message |
| StudentService.SearchStudents | src/services/studentService.ts:128-151 | searchStudents over the backend's matches, or "Failed to search students: " + message |
| StudentService.GetStudentById | src/services/studentService.ts:29-49 | the student with recomputed attendance, null for not-found, otherwise "Failed to fetch student: " + message |
| StudentService.WrittenWithAttendance | src/services/studentService.ts:78-115 | createStudent/updateStudent: the written row with its attendance, or the operation's failure message |
| StudentService.NewStudentAttendance | src/services/studentService.ts:78-95 | a newly created student, who has no attendance records, has attendance 0 |
| SyllabusService.SyllabusProgressOf | src/services/syllabusService.ts:75-95 | totals, completed count (all four steps done), and the percentage: 0 with no chapters, else round(completed/total·100), in 0..100, and 100 when all are complete |
| SyllabusService.CalculateSyllabusProgress | src/services/syllabusService.ts:5-18 | the progress of the fetched chapters, or "Failed to fetch syllabus chapters: " + message |
| SyllabusService.PercentagesBounds | src/services/syllabusService.ts:103-106 | every subject's percentage is in 0..100 |
| SyllabusService.PercentagesPrefixFails | src/services/syllabusService.ts:103-106 | the loop stops at the first subject whose chapters fail to load |
| SyllabusService.CalculateOverallSyllabusProgress | src/services/syllabusService.ts:97-109 | 0 with no subjects, the rounded mean of the percentages otherwise, in 0..100; the subjects' fetch error, or "Failed to fetch syllabus chapters: " + the message of the first failing subject |
| SyllabusService.TotalProgress | src/services/syllabusService.ts:100-106 | the loop: the sum of the subjects' percentages when all load; otherwise it stops at the first failing subject, in order, with its prefixed message |
| SyllabusService.OverallProgressBounds | src/services/syllabusService.ts:108 | the rounded mean of the percentages is in 0..100 |
| SyllabusService.GetAvailableSubjects | src/services/syllabusService.ts:111-129 | the distinct subjects, every one present, or "Failed to fetch subjects: " + message |
| SyllabusService.GetAvailableClasses | src/services/syllabusService.ts:131-144 | the distinct classes, every one present, or "Failed to fetch classes: " + message |
| FeeService.DueDateSpec | src/services/feeService.ts:55 | for month "YYYY-MM" the due date is year-MM-15 |
| FeeService.DueDateWithoutDash | src/services/feeService.ts:55 | a month with no dash gives "year-undefined-15" |
| FeeService.FeeRecordsForMonth | src/services/feeService.ts:47-56 | one record per student, in order, with the student's amount, status 'not started' and the due date |
| FeeService.CreateOverwritesStatus | src/services/feeService.ts:58-62 | as written, the upsert resets an existing record of the month to 'not started' and keeps its paid date |
| FeeService.CreateBreaksPaidDateRule | src/services/feeService.ts:58-62 | an input showing it: a paid record becomes 'not started' with a paid date |
| FeeService.InsertMissing | src/services/feeService.ts:58-62 | corrected: existing rows are kept as they are, every student gets a row for the month, and each new row is a generated record |
| FeeService.InsertMissingKeepsPaidDateRule | src/services/feeService.ts:75-80 | corrected generation keeps the rule that a record has a paid date exactly when it is paid |
| FeeService.StatusUpdated | src/services/feeService.ts:69-91 | the (student, month) record gets the status, with today's date as paid date when paid and none otherwise; nothing else changes |
| FeeService.StatusUpdatedKeepsPaidDateRule | src/services/feeService.ts:75-80 | a status update keeps the paid-date rule |
| FeeService.FeeStatusSynced | src/services/feeService.ts:93-100 | the student's fee_status follows only for the current month; other students untouched |
| FeeService.FeeTables.CreateFeeRecordsForMonth | src/services/feeService.ts:33-67 | as written: the fetch error, nothing for no students, else the upsert's result or "Failed to create fee records: " + message |
| FeeService.FeeTables.CreateMissingFeeRecords | src/services/feeService.ts:33-67 | corrected: the fetch error, or the missing records inserted |
| FeeService.FeeTables.EnsureCurrentMonthRecords | src/services/feeService.ts:175-182 | the current month's records generated with the corrected insert-only semantics of the Findings row (not the as-written upsert; see Left out): the fetch error with the table unchanged, or exactly the missing students' records inserted |
| FeeService.FeeTables.UpdateFeeRecordStatus | src/services/feeService.ts:69-101 | the record updated and the fee status synced; an update error changes nothing and is "Failed to update fee record: " + message; an error of the unchecked students write still resolves and leaves the fee status as it was |
| FeeService.MonthlyStats | src/services/feeService.ts:122-146 | four status counts, totals, collected amount of the paid records and the two shares to one decimal, each a whole number of tenths within 0.05 of the share (0 with no records) |
| FeeService.StatusCountsPartition | src/services/feeService.ts:124-127 | the four counts add up to the number of records |
| FeeService.CollectedAtMostTotal | src/services/feeService.ts:132-135 | with non-negative amounts the collected amount is between 0 and the total |
| FeeService.PercentagesBounds | src/services/feeService.ts:143-144 | both shares are 0..100 |
| FeeService.RoundedShareBounds | src/services/feeService.ts:129-130 | a share of count <= total, to one decimal, is 0..100 |
| FeeService.GetMonthlyFeeStats | src/services/feeService.ts:103-147 | the statistics, or "Failed to fetch fee stats: " + message |
| FeeService.Months | src/services/feeService.ts:163-171 | the month of each row, in order |
| FeeService.Values | src/services/feeService.ts:172 | the value of each option, in order |
| FeeService.FirstMonthsValues | src/services/feeService.ts:162-172 | the options are the distinct months in first-appearance order |
| FeeService.FirstMonthsLabels | src/services/feeService.ts:165-168 | each option's label is "month_name year" of the month's first row |
| FeeService.GetAvailableMonths | src/services/feeService.ts:150-173 | the loop over the rows, or "Failed to fetch available months: " + message |
| AttendanceManagement.StatusChanged | src/components/AttendanceManagement.tsx:80-88 | the rows of that student get the status, every other row is unchanged, same length |
| AttendanceManagement.StatusChangedIdempotent | src/components/AttendanceManagement.tsx:80-88 | marking a student twice with one status is marking once |
| AttendanceManagement.StatusChangedLastWins | src/components/AttendanceManagement.tsx:80-88 | of two marks of a student the second wins |
| AttendanceManagement.SavePayload | src/components/AttendanceManagement.tsx:95-100 | one mark per row with the row's student and status and the selected date and class |
| AttendanceManagement.SaveStoresSheet | src/components/AttendanceManagement.tsx:95-102 | saving a sheet with distinct students succeeds and stores each row's status under (student, date) |
| AttendanceManagement.SaveEnabledPayload | src/components/AttendanceManagement.tsx:180 | when the save button is enabled the payload is non-empty and carries the selected class |
| AttendanceManagement.AttendancePage.constructor | src/components/AttendanceManagement.tsx:16-29 | the initial state, with today's date |
| AttendanceManagement.AttendancePage.LoadClasses | src/components/AttendanceManagement.tsx:42-52 | the classes, and the first one selected when none is; an error is shown |
| AttendanceManagement.AttendancePage.LoadAttendanceData | src/components/AttendanceManagement.tsx:54-67 | nothing without a class; the fetched sheet, or the error with the old sheet kept |
| AttendanceManagement.AttendancePage.LoadStats | src/components/AttendanceManagement.tsx:69-78 | nothing without a class; the fetched statistics; a failure is only logged |
| AttendanceManagement.AttendancePage.HandleStatusChange | src/components/AttendanceManagement.tsx:80-88 | the sheet becomes the changed sheet |
| AttendanceManagement.AttendancePage.HandleSaveAttendance | src/components/AttendanceManagement.tsx:90-114 | the table gets the upsert of the payload; success shows the banner and reloads the statistics; an error is shown and the table unchanged |
| AcademicsManagement.AllClasses | src/components/AcademicsManagement.tsx:64 | `[...new Set([...a, ...b])]`: exactly the classes of either list, no duplicates |
| AcademicsManagement.AllClassesSyllabusFirst | src/components/AcademicsManagement.tsx:64 | the syllabus classes, when distinct, come first and in their order |
| AcademicsManagement.DistinctKeepsPrefix | src/components/AcademicsManagement.tsx:64 | de-duplicating a + b keeps a distinct a as the prefix |
| AcademicsManagement.FinalSubjects | src/components/AcademicsManagement.tsx:89-90 | the class's subjects, or the five defaults when it has none; never empty |
| AcademicsManagement.ProgressList | src/components/AcademicsManagement.tsx:95-98 | it fails exactly when some subject's chapters fail to load; otherwise one progress per subject, in order |
| AcademicsManagement.ProgressListFirstFailure | src/components/AcademicsManagement.tsx:95-98 | a failing list carries "Failed to fetch syllabus chapters: " + the message of the first failing subject in list order |
| AcademicsManagement.PercentList | src/components/AcademicsManagement.tsx:118 | the percentages of the progress list, in order |
| AcademicsManagement.OverallSyllabusProgress | src/components/AcademicsManagement.tsx:116-120 | 0 for no subjects, otherwise `Math.round` of the mean percentage, and 0..100 when every percentage is |
| AcademicsManagement.ProgressPercentsAgree | src/components/AcademicsManagement.tsx:95-98 | the page's progress list and the service's loop succeed together, and give the same percentages in the same order |
| AcademicsManagement.ProgressAgreesWithService | src/components/AcademicsManagement.tsx:95-98 | the two succeed together, and the page's overall progress is the service's rounded mean |
| AcademicsManagement.ProgressColor | src/components/AcademicsManagement.tsx:122-127 | the colour bands: green from 80, yellow 60..79, orange 40..59, red below 40 |
| AcademicsManagement.ProgressBarColor | src/components/AcademicsManagement.tsx:129-134 | the bar colour with the same bands |
| AcademicsManagement.ColorsAgree | src/components/AcademicsManagement.tsx:122-134 | two percentages share a text colour exactly when they share a bar colour |
| AcademicsManagement.AcademicsPage.constructor | src/components/AcademicsManagement.tsx:23-34 | the initial state |
| AcademicsManagement.AcademicsPage.LoadInitialData | src/components/AcademicsManagement.tsx:52-76 | the classes of both sources, the first selected when none is; the first failure is shown and the list kept |
| AcademicsManagement.AcademicsPage.LoadClassData | src/components/AcademicsManagement.tsx:78-114 | nothing without a class; the subjects, or the defaults when the class has none; then the progress list and the exam summary, each stated through ProgressList; each failure shown, the selection and classes kept, and the exam figures change only when the subjects, the progress list and the exam fetch all succeed |
| AcademicsManagement.AcademicsPage.ApplyProgress | src/components/AcademicsManagement.tsx:94-107 | a failed progress list keeps the old list and shows its error; otherwise the list is stored, then a failed exam fetch shows its error, and a successful one sets the exam count and average performance |
| AcademicsManagement.AcademicsPage.SelectFirstSubject | src/components/AcademicsManagement.tsx:46-50 | the first subject is selected when there are subjects and none is selected, and nothing else changes |
| AcademicsManagement.AcademicsPage.OverallProgress | src/components/AcademicsManagement.tsx:116-120 | the overall progress of the page's list, 0 when empty and 0..100 when every percentage is |
| ExamManagementView.FilterExams | src/components/ExamManagementView.tsx:68-78 | all exams with an empty term, otherwise the exams whose name contains the term ignoring case, as a subsequence (order kept) |
| ExamManagementView.FilterExamsMembers | src/components/ExamManagementView.tsx:68-78 | with a term, an exam is listed exactly when it is among the exams and its name matches |
| ExamManagementView.Ratios | src/components/ExamManagementView.tsx:113 | each exam's avg_marks / total_marks · 100 |
| ExamManagementView.AvgPerformance | src/components/ExamManagementView.tsx:110-115 | 0 with no exams; non-finite exactly when some exam has total 0; otherwise within one half of the mean ratio |
| ExamManagementView.AvgPerformanceBounds | src/components/ExamManagementView.tsx:110-115 | when every exam has a positive total and an average within it, the performance is 0..100 |
| ExamManagementView.PercentOfShare | src/components/ExamManagementView.tsx:243 | a share a of t > 0, as a percentage, is 0..100 |
| ExamManagementView.ExamPercent | src/components/ExamManagementView.tsx:243 | 0 for a non-positive total, else `Math.round(avg / total · 100)`, 0..100 when the average is within the total |
| ExamManagementView.AvgPerformanceSingle | src/components/ExamManagementView.tsx:110-115 | for one exam the card's average is the row's percentage |
| ExamManagementView.TotalStudents | src/components/ExamManagementView.tsx:115 | the sum of the exams' student counts, non-negative when theirs are |
| ExamManagementView.TotalStudentsAppend | src/components/ExamManagementView.tsx:115 | the student total of two lists is the sum of their totals |
| ExamManagementView.GetExamStats | src/components/ExamManagementView.tsx:110-118 | the exam count, the average performance and the student total |
| ExamManagementView.ExamListView.constructor | src/components/ExamManagementView.tsx:30-39 | the initial state, with the filtered list in step |
| ExamManagementView.ExamListView.LoadExamData | src/components/ExamManagementView.tsx:49-66 | the fetched exams and the service's fixed subject list; an exams failure shows its error and keeps the old lists; the filtered list stays in step |
| ExamManagementView.ExamListView.SetSearchTerm | src/components/ExamManagementView.tsx:68-78 | the filter effect re-runs with the new term |
| ExamManagementView.ExamListView.HandleDeleteExam | src/components/ExamManagementView.tsx:80-93 | nothing unless confirmed; a delete bumps the refresh counter by one and closes the menu; a failure is alerted |
| ExamManagementView.ExamListView.HandleExamAdded | src/components/ExamManagementView.tsx:95-98 | the refresh counter goes up by one |
| ExamManagementView.ExamListView.HandleBackFromDetails | src/components/ExamManagementView.tsx:100-104 | the details close and the refresh counter goes up by one |
| ExamDetailsView.MarkChanged | src/components/ExamDetailsView.tsx:47-55 | the sheet keeps its length; the student's rows take the new mark and are no longer absent; every other row is unchanged |
| ExamDetailsView.AbsentToggled | src/components/ExamDetailsView.tsx:57-65 | the student's rows take the flag and the mark -1 when absent, 0 when present; every other row is unchanged |
| ExamDetailsView.MarkChangedIdempotent | src/components/ExamDetailsView.tsx:47-55 | entering the same mark twice is entering it once |
| ExamDetailsView.MarkAfterToggle | src/components/ExamDetailsView.tsx:47-65 | entering a mark after an absence toggle gives the same sheet as entering it alone |
| ExamDetailsView.SavePayload | src/components/ExamDetailsView.tsx:71-75 | one input per row, in order, carrying the row's student, mark and absence flag |
| ExamDetailsView.ExamDetailsPage.constructor | src/components/ExamDetailsView.tsx:21-27 | the initial state |
| ExamDetailsView.ExamDetailsPage.LoadExamDetails | src/components/ExamDetailsView.tsx:33-45 | the fetched exam and its marks replace the state; a failure is shown and the state kept |
| ExamDetailsView.ExamDetailsPage.HandleMarkChange | src/components/ExamDetailsView.tsx:47-55 | the sheet becomes its mark-changed form, nothing else changes |
| ExamDetailsView.ExamDetailsPage.HandleAbsentToggle | src/components/ExamDetailsView.tsx:57-65 | the sheet becomes its toggled form, nothing else changes |
| ExamDetailsView.ExamDetailsPage.HandleSaveMarks | src/components/ExamDetailsView.tsx:67-91 | the sheet is upserted into the marks table with the service's rules; on success the banner shows, editing ends and the details reload; on failure the service's message is shown and the table and state are kept |
| ExamDetailsView.PercentAtLeastSpec | src/components/ExamDetailsView.tsx:347-355 | the integer test used for a grade band agrees with `(marks / total) · 100 >= k` |
| ExamDetailsView.SignOfProduct | src/components/ExamDetailsView.tsx:347-355 | scaling by a positive factor keeps the sign |
| ExamDetailsView.GradeAbsent | src/components/ExamDetailsView.tsx:347-355 | an absent row's grade is ABS |
| ExamDetailsView.GradeBands | src/components/ExamDetailsView.tsx:347-355 | for a present row with a positive total, each grade holds exactly on its band: A+ from 90 per cent, A 80..90, B+ 70..80, B 60..70, C+ 50..60, C 40..50, F below 40 |
| ExamDetailsView.GradeAgreesWithPass | src/components/ExamDetailsView.tsx:347-355 | a present row passes (40 per cent or more) exactly when its grade is not F |
| ExamDetailsView.Passing | src/components/ExamDetailsView.tsx:130 | the present rows at 40 per cent or more of the total, at most all of them |
| ExamDetailsView.Values | src/components/ExamDetailsView.tsx:128 | the rows' marks, in order |
| ExamDetailsView.CalculateStats | src/components/ExamDetailsView.tsx:118-140 | zeros before loading or with no rows; otherwise present and absent counts that make the total, the pass count within the present count, the present mean to one decimal (0 with nobody present), and its percentage of the total to one decimal, each a whole number of tenths within 0.05 of the exact figure, non-finite exactly when the total is 0 |
| ExamDetailsView.PassRate | src/components/ExamDetailsView.tsx:286 | 0 with nobody present, otherwise `Math.round` of passed over present · 100, 0..100 when the counts are ordered |
| ExamDetailsView.PassRateBounds | src/components/ExamDetailsView.tsx:118-140 | the pass rate of any sheet's statistics is 0..100 |
| SyllabusCoverageView.EmptyDraft | src/components/SyllabusCoverageView.tsx:40-48 | the blank chapter form for the class and subject: empty name, every step pending, notes undistributed |
| SyllabusCoverageView.CreatedChapter | src/components/SyllabusCoverageView.tsx:71-78 | the created chapter carries the selected class and subject, whatever the form held, and the form's name |
| SyllabusCoverageView.NewChapterIsPending | src/components/SyllabusCoverageView.tsx:71-78 | a chapter added from the blank form is not completed |
| SyllabusCoverageView.AddDisabled | src/components/SyllabusCoverageView.tsx:291 | the add button is disabled exactly when the name is blank after trimming |
| SyllabusCoverageView.FilteredChapters | src/components/SyllabusCoverageView.tsx:140-150 | an order-preserving subsequence of the chapters, each matching the search and the status filter |
| SyllabusCoverageView.FilteredMembers | src/components/SyllabusCoverageView.tsx:140-150 | a chapter is listed exactly when it is among the chapters and matches |
| SyllabusCoverageView.EmptySearchListsAll | src/components/SyllabusCoverageView.tsx:140-150 | an empty search with status all lists every chapter |
| SyllabusCoverageView.StatusFiltersPartition | src/components/SyllabusCoverageView.tsx:140-150 | for one search term the completed and pending lists are disjoint and together are, as a multiset and in number, the list filtered with status all |
| SyllabusCoverageView.GetCompletionStats | src/components/SyllabusCoverageView.tsx:152-157 | the chapter count, the completed count within it, and 0 or `Math.round` of completed over total · 100, in 0..100 |
| SyllabusCoverageView.CompletionAgreesWithService | src/components/SyllabusCoverageView.tsx:152-157 | the page's completion figures equal the service's progress for the same chapters |
| SyllabusCoverageView.WithField | src/components/SyllabusCoverageView.tsx:100-113 | the one edited field takes its new value; every other field is kept |
| SyllabusCoverageView.ChapterUpdated | src/components/SyllabusCoverageView.tsx:107-109 | the list keeps its length; the chapters with the id take the edit, the others are unchanged |
| SyllabusCoverageView.AllStepsComplete | src/components/SyllabusCoverageView.tsx:100-113 | ticking the four steps of a chapter makes it completed |
| SyllabusCoverageView.ChapterDeleted | src/components/SyllabusCoverageView.tsx:124 | an order-preserving subsequence with no chapter of the id |
| SyllabusCoverageView.ChapterDeletedMembers | src/components/SyllabusCoverageView.tsx:124 | a chapter remains exactly when it was there and has another id |
| SyllabusCoverageView.SyllabusCoveragePage.constructor | src/components/SyllabusCoverageView.tsx:31-48 | the initial state with the blank form |
| SyllabusCoverageView.SyllabusCoveragePage.LoadChapters | src/components/SyllabusCoverageView.tsx:50-69 | nothing without a subject; otherwise the fetched chapters, or the error with the list kept |
| SyllabusCoverageView.SyllabusCoveragePage.HandleAddChapter | src/components/SyllabusCoverageView.tsx:71-98 | a failure is shown and the form kept; on success the banner shows, the form closes and is reset, and the chapters reload |
| SyllabusCoverageView.SyllabusCoveragePage.HandleUpdateChapter | src/components/SyllabusCoverageView.tsx:100-114 | a saved edit applies to the local list; a failure is shown and the list kept |
| SyllabusCoverageView.SyllabusCoveragePage.HandleDeleteChapter | src/components/SyllabusCoverageView.tsx:116-131 | nothing unless confirmed; a delete removes the chapter locally and shows the banner; a failure is shown and the list kept |
| StudentTable.SortValueOf | src/components/StudentTable.tsx:96-116 | the sort key of a student: lower-cased class, attendance, fee amount, or lower-cased name for any other key |
| StudentTable.ValueLessAsymmetric | src/components/StudentTable.tsx:118-119 | the key order is asymmetric |
| StudentTable.CompareAntisymmetric | src/components/StudentTable.tsx:93-120 | swapping the two students negates the comparison |
| StudentTable.Insert | src/components/StudentTable.tsx:93-120 | one more element: the same multiset plus the new one, which goes first or after the first element |
| StudentTable.InsertOrdered | src/components/StudentTable.tsx:93-120 | inserting into a list ordered by the comparator gives an ordered list |
| StudentTable.SortedStudents | src/components/StudentTable.tsx:93-120 | a permutation of the students ordered by the comparison |
| StudentTable.SortAscending | src/components/StudentTable.tsx:118-119 | with direction asc the keys never decrease |
| StudentTable.SortDescending | src/components/StudentTable.tsx:118-119 | with any other direction the keys never increase |
| StudentTable.SortByAttendance | src/components/StudentTable.tsx:105-107 | sorting by attendance ascending gives non-decreasing attendance |
| StudentTable.SortByName | src/components/StudentTable.tsx:96-99 | sorting by name ascending gives lower-cased names in non-decreasing string order |
| StudentTable.HandleSort | src/components/StudentTable.tsx:123-128 | the key becomes the clicked one; the direction is desc exactly when that key was already sorted asc |
| StudentTable.HandleSortTwice | src/components/StudentTable.tsx:123-128 | a second click on the same header flips the direction |
| StudentTable.StudentDeleted | src/components/StudentTable.tsx:83 | an order-preserving subsequence with no student of the id |
| StudentTable.StudentDeletedMembers | src/components/StudentTable.tsx:83 | a student remains exactly when it was there and has another id |
| StudentTable.AttendanceColor | src/components/StudentTable.tsx:145-149 | green exactly from 90, yellow exactly 80..89, red exactly below 80 |
| StudentTable.StudentTableView.constructor | src/components/StudentTable.tsx:31-35 | the initial state |
| StudentTable.StudentTableView.ShowFetched | src/components/StudentTable.tsx:49-60 | the fetched students, or the error with the list kept |
| StudentTable.StudentTableView.OnSearchTermChange | src/components/StudentTable.tsx:41-73 | a non-empty term shows the search results, an empty one the whole list; a failure shows its error |
| StudentTable.StudentTableView.HandleDeleteStudent | src/components/StudentTable.tsx:75-87 | nothing unless confirmed; a delete removes the student locally and closes the menu; a failure is alerted and nothing changes |
| Seqs.SubseqRefl | src/components/FeeManagement.tsx:108-116 | every list is a subsequence of itself (the unfiltered case) |
| FeeManagement.FilterRecords | src/components/FeeManagement.tsx:108-116 | every record with an empty term, otherwise an order-preserving subsequence of records whose student name or email contains the term ignoring case |
| FeeManagement.FilterRecordsMembers | src/components/FeeManagement.tsx:108-116 | with a term, a record is listed exactly when it is among the records and matches |
| FeeManagement.StatusChanged | src/components/FeeManagement.tsx:129-137 | the list keeps its length; the student's records take the new status, the others are unchanged |
| FeeManagement.InvoiceFileNameSpec | src/components/FeeManagement.tsx:169 | the file name is invoice-, the slug, -, the month and .txt; the slug has no white space and no upper-case letter, and is the lower-cased name when the name has no white space |
| FeeManagement.FeePage.constructor | src/components/FeeManagement.tsx:18-37 | the initial state, with the filtered list in step |
| FeeManagement.FeePage.LoadClasses | src/components/FeeManagement.tsx:91-97 | the classes become Grade-6, Grade-7, Grade-8 |
| FeeManagement.FeePage.InitializeData | src/components/FeeManagement.tsx:55-71 | with the corrected generation (see Left out), the current month's missing records are inserted and the current month selected; a failure shows its error and selects nothing |
| FeeManagement.FeePage.LoadFeeRecords | src/components/FeeManagement.tsx:73-89 | nothing without a month; otherwise the records, then the figures; the first failure is shown and what it would have set is kept; the filtered list stays in step |
| FeeManagement.FeePage.LoadAvailableMonths | src/components/FeeManagement.tsx:99-106 | the fetched months, or the old ones after a failure |
| FeeManagement.FeePage.SetSearchTerm | src/components/FeeManagement.tsx:108-116 | the filter effect re-runs with the new term |
| FeeManagement.FeePage.HandleStatusChange | src/components/FeeManagement.tsx:121-144 | the backend update with the service's rules, then the local rows and the figures; an update failure is alerted and nothing changes; a figures failure is alerted with the rows already changed |
| EventManagement.Recipients | src/components/EventManagement.tsx:176-180 | an order-preserving subsequence of the students in a selected class, or with a selected id, by mode |
| EventManagement.RecipientsMembers | src/components/EventManagement.tsx:176-180 | a student is a recipient exactly when it is among the students and selected by the mode's rule |
| EventManagement.SendDisabledNoRecipients | src/components/EventManagement.tsx:673 | with nothing selected for the mode the send button is disabled and there would be no recipients |
| EventManagement.Checked | src/components/EventManagement.tsx:601-603 | the value is appended, the earlier selection kept as the prefix |
| EventManagement.Unchecked | src/components/EventManagement.tsx:604-605 | every copy of the value is removed; other values stay selected exactly when they were |
| EventManagement.WithoutAppend | src/components/EventManagement.tsx:604-605 | removing a value from a concatenation removes it from both parts |
| EventManagement.CheckThenUncheck | src/components/EventManagement.tsx:600-606 | ticking then unticking a box leaves the selection as unticking alone |
| EventManagement.InsertSorted | src/components/EventManagement.tsx:233-235 | inserting a new string into a strictly sorted list keeps it strictly sorted, with the same multiset plus the string |
| EventManagement.SortStrings | src/components/EventManagement.tsx:233-235 | a permutation of distinct strings in strictly increasing order |
| EventManagement.ClassesOf | src/components/EventManagement.tsx:234 | the students' classes, in order |
| EventManagement.UniqueClasses | src/components/EventManagement.tsx:233-235 | exactly the students' classes, each once, in increasing string order |
| EventManagement.StrictlySortedNoDups | src/components/EventManagement.tsx:233-235 | a strictly sorted list has no duplicates |
| EventManagement.StrictlySortedSpan | src/components/EventManagement.tsx:233-235 | in a strictly sorted list every earlier string is less than every later one |
| EventManagement.EventTypeColor | src/components/EventManagement.tsx:219-231 | each known event type's colour, and the grey of Other for any unknown type |
| EventManagement.OtherColorIsFallback | src/components/EventManagement.tsx:219-231 | the grey is given exactly to Other and the unknown types |
| EventManagement.DayEvents | src/components/EventManagement.tsx:250 | an order-preserving subsequence of the events on that date |
| EventManagement.DayCell | src/components/EventManagement.tsx:249-270 | the day's cell: its date key, at most the first two of its events, and the count of the rest when there are more than two |
| EventManagement.DayCellAccountsAll | src/components/EventManagement.tsx:255-268 | shown events plus the "more" count are all the day's events |
| EventManagement.RenderCalendar | src/components/EventManagement.tsx:237-275 | firstDay blank cells, then one day cell per day of the month, in order |
| EventManagement.EmptyForm | src/components/EventManagement.tsx:42-49 | the blank form: empty title and description, PTM, today, 10:00, On time |
| EventManagement.FormOf | src/components/EventManagement.tsx:141-153 | the form filled from an event, an absent description as empty |
| EventManagement.EventPage.constructor | src/components/EventManagement.tsx:26-49 | the initial state with the blank form |
| EventManagement.EventPage.ToggleClass | src/components/EventManagement.tsx:600-606 | a tick appends the class, an untick removes it; every other field, including the events, the selected event and the editor flags, is unchanged |
| EventManagement.EventPage.ToggleStudent | src/components/EventManagement.tsx:630-636 | a tick appends the student id, an untick removes it; every other field, including the events, the selected event and the editor flags, is unchanged |
| EventManagement.EventPage.HandleSendNotification | src/components/EventManagement.tsx:169-209 | with no recipients the error is shown and the selection kept; otherwise the recipients are returned, the notice counts them, the dialog closes and both selections are cleared; the students, events, form, selected event and editor flags are unchanged |
| EventManagement.EventPage.HandleEditEvent | src/components/EventManagement.tsx:141-153 | the event is selected, the form filled from it and the editor opened; the lists, messages, selections, dialog and notification mode are unchanged |
| EventManagement.EventPage.ResetForm | src/components/EventManagement.tsx:155-167 | the blank form, the editor closed and no event selected; the lists, messages, selections, dialog and notification mode are unchanged |
| EventManagement.EventPage.LoadMonth | src/components/EventManagement.tsx:51-79 | the month's events or the error with the old ones kept; the students, or the old ones after a failure that is only logged; the form, selections, selected event, editor flags, dialog and notification mode are unchanged |
| StudentManagement.Attendances | src/components/StudentManagement.tsx:52-54 | each student's attendance, in order |
| StudentManagement.LoadStats | src/components/StudentManagement.tsx:34-61 | the student count; the active (not 'not started') and this-month counts within it; the mean attendance to one decimal (a whole number of tenths within 0.05 of the mean), 0 with no students and 0..100 when every attendance is |
| StudentManagement.ActivePartition | src/components/StudentManagement.tsx:40 | active and not-started students together make the total |
| StudentManagement.StudentsPage.constructor | src/components/StudentManagement.tsx:21-27 | zero figures and counter |
| StudentManagement.StudentsPage.ReloadStats | src/components/StudentManagement.tsx:30-67 | the figures of the fetched students; a failure keeps the old ones |
| StudentManagement.StudentsPage.HandleStudentAdded | src/components/StudentManagement.tsx:69-71 | the refresh counter goes up by one |
| AdminManagement.FilterUsers | src/components/AdminManagement.tsx:52-63 | every user with an empty term, otherwise users whose full name or email contains the term ignoring case, as a subsequence (order kept) |
| AdminManagement.FilterUsersMembers | src/components/AdminManagement.tsx:52-63 | with a term, a user is listed exactly when it is among the users and matches |
| AdminManagement.Stats | src/components/AdminManagement.tsx:119-124 | the user, admin, teacher and active counts; admins and teachers make the total; active within it |
| AdminManagement.RolesPartition | src/components/AdminManagement.tsx:119-124 | every user is counted as exactly one of admin and teacher |
| AdminManagement.ToggleDropdown | src/components/AdminManagement.tsx:297 | clicking the open row's menu closes it; any other row's opens that one |
| AdminManagement.ToggleDropdownTwice | src/components/AdminManagement.tsx:297 | two clicks leave the menu open on the row exactly when it was before |
| AdminManagement.AdminPage.constructor | src/components/AdminManagement.tsx:21-29 | the initial state, with the filtered list in step |
| AdminManagement.AdminPage.LoadUsers | src/components/AdminManagement.tsx:39-50 | the fetched users, or the error with the old list kept; the filtered list stays in step |
| AdminManagement.AdminPage.SetSearchTerm | src/components/AdminManagement.tsx:35-37 | the filter effect re-runs with the new term |
| AdminManagement.AdminPage.ClickMenu | src/components/AdminManagement.tsx:297 | the menu toggles on the row |
| AdminManagement.AdminPage.HandleDeleteUser | src/components/AdminManagement.tsx:65-77 | nothing unless confirmed; a delete bumps the counter by one and closes the menu; a failure is alerted |
| AdminManagement.AdminPage.HandleUserAdded | src/components/AdminManagement.tsx:79-81 | the refresh counter goes up by one |
| AdminManagement.AdminPage.HandleUserUpdated | src/components/AdminManagement.tsx:83-86 | the counter goes up by one and the edit dialog closes |
| ProfileManagement.PasswordError | src/components/ProfileManagement.tsx:117-125 | the mismatch message when the fields differ, else the length message under 6 characters; no error exactly when they agree and are long enough |
| ProfileManagement.MismatchReportedFirst | src/components/ProfileManagement.tsx:117-125 | a short password that also differs from its confirmation reports the mismatch |
| ProfileManagement.EnabledButShort | src/components/ProfileManagement.tsx:117-125 | an enabled change button does not mean an acceptable password |
| ProfileManagement.FormOf | src/components/ProfileManagement.tsx:63-69 | the form filled from the profile |
| ProfileManagement.UpdatePayload | src/components/ProfileManagement.tsx:85-91 | the edited fields from the form; role and active flag from the stored profile |
| ProfileManagement.SaveUnchangedForm | src/components/ProfileManagement.tsx:85-91 | saving an unchanged form sends the stored profile back as it is |
| ProfileManagement.ProfilePage.constructor | src/components/ProfileManagement.tsx:23-41 | the initial state |
| ProfileManagement.ProfilePage.LoadUserProfile | src/components/ProfileManagement.tsx:55-76 | a found profile fills the form; no profile changes nothing; a failure shows its error |
| ProfileManagement.ProfilePage.HandleSaveProfile | src/components/ProfileManagement.tsx:78-114 | nothing without a profile; the update payload; a failure is shown; on success the new email goes to sign-in exactly when it changed, the banner shows, editing ends and the profile reloads: the reloaded profile and form, or the old ones kept when the row is missing (no error) or the reload fails (its error) |
| ProfileManagement.ProfilePage.HandleChangePassword | src/components/ProfileManagement.tsx:116-154 | a failed check shows its message and sends nothing; otherwise the new password is sent; a sign-in error is shown; on success the fields are emptied and the banner shows |
| ProfileManagement.ProfilePage.HandleCancel | src/components/ProfileManagement.tsx:156-166 | the form goes back to the stored profile, editing ends, the error clears |
| ProfileManagement.ProfilePage.HandleCancelPassword | src/components/ProfileManagement.tsx:168-176 | the password fields are emptied, the dialog closes, the error clears |
| StudentProfile.DetailsOf | src/components/StudentProfile.tsx:78-84 | the personal details filled from the student, a missing address as empty |
| StudentProfile.UpdateOf | src/components/StudentProfile.tsx:234-240 | the update carries the edited fields, the address always present |
| StudentProfile.SaveUnedited | src/components/StudentProfile.tsx:231-246 | saving unedited details sends the student's own fields back, a missing address as empty |
| StudentProfile.FindMark | src/components/StudentProfile.tsx:162 | the index of the first mark row of the student, or none when no row has the student |
| StudentProfile.MarkPercent | src/components/StudentProfile.tsx:165-167 | non-finite exactly when the total is 0; otherwise within one half of marks over total · 100, and 0..100 when the marks lie within a positive total |
| StudentProfile.ExamRecordOf | src/components/StudentProfile.tsx:159-177 | the exam with the student's marks and absence flag; 0, not absent and 0 per cent when the details fail or hold no row for the student; 0 per cent when absent; the rounded percentage otherwise |
| StudentProfile.ExamRecordBounds | src/components/StudentProfile.tsx:163-167 | with a positive total and marks within it, every line's percentage is 0..100 |
| StudentProfile.ExamRecords | src/components/StudentProfile.tsx:157-178 | one line per exam, in order, each from that exam's details |
| StudentProfile.NextStatus | src/components/StudentProfile.tsx:279 | a click marks a present day absent and any other day present |
| StudentProfile.ClickTwice | src/components/StudentProfile.tsx:279 | two clicks bring a marked day back to its status, and an unmarked day to absent |
| StudentProfile.DayCell | src/components/StudentProfile.tsx:272-291 | the day's button: its date key and the recorded status exactly when the day has one |
| StudentProfile.ClickChangesOnlyThatDay | src/components/StudentProfile.tsx:272-280 | after a click the day shows the new status and every other day of the month is unchanged |
| StudentProfile.RenderCalendar | src/components/StudentProfile.tsx:260-295 | firstDay blank cells, then one day button per day of the month, in order |
| StudentProfile.FeeRecordsOf | src/components/StudentProfile.tsx:138 | the month's records of the student, as a subsequence of them (order kept) |
| StudentProfile.FeeRecordsOfMembers | src/components/StudentProfile.tsx:138 | a record is kept exactly when it is among the records and belongs to the student |
| StudentProfile.FindRecord | src/components/StudentProfile.tsx:208 | the index of the first record with the id, or none when there is none |
| StudentProfile.StudentProfilePage.constructor | src/components/StudentProfile.tsx:33-52 | the initial state |
| StudentProfile.StudentProfilePage.LoadStudent | src/components/StudentProfile.tsx:67-91 | the found student with its details filled; 'Student not found' when there is none; a failure's message; the other tabs' data kept |
| StudentProfile.StudentProfilePage.LoadExamData | src/components/StudentProfile.tsx:148-186 | with a student and the class's exams, one line per exam; otherwise the lines are kept |
| StudentProfile.StudentProfilePage.LoadFeeData | src/components/StudentProfile.tsx:129-144 | with a student and the month's records, the student's records; otherwise they are kept |
| StudentProfile.StudentProfilePage.HandleAttendanceChange | src/components/StudentProfile.tsx:188-204 | nothing without a student; the day is marked in the attendance table and locally; a failure of markAttendance is alerted as "Failed to update attendance: " + the service's prefixed message, and nothing changes |
| StudentProfile.StudentProfilePage.HandleFeeStatusChange | src/components/StudentProfile.tsx:206-222 | nothing for an unknown id; the record's student and month are updated with the service's rules and the records reload; a failure is alerted with both prefixes and nothing changes |
| StudentProfile.StudentProfilePage.HandlePersonalSave | src/components/StudentProfile.tsx:231-246 | nothing without a student; the update sent; a failure is alerted; on success editing ends and the student reloads: the found student and its form, or the old ones kept with "Student not found" or the lookup's error |

## Left out

- Backend calls: every select, insert, update, delete and upsert against the hosted database, and the sign-in service's `updateUser`, are inputs (`Result` values, `Lookup` answers, error options) or the keyed table classes. Network errors are modelled only as "the call throws with this message".
- Server-side filtering: the `ilike` searches of `searchStudents` and `searchUsers` and the `!inner` joins are evaluated by the database, so their results are inputs.
- Clocks: `new Date()`, `toISOString`, `toLocaleDateString`, `getDay` and the days-in-month computation are parameters (today, the current month, `firstDay`, `daysInMonth`). The browser's parsing of an enrollment date into month and year is the `enrolledIn` parameter of `StudentManagement.LoadStats`.
- Randomness: the simulated attendance of the student profile (`loadAttendanceData`, src/components/StudentProfile.tsx:94-127) and `generatePassword` of the add-user dialog.
- Downloads: the CSV export of the exam sheet and the invoice text, Blob and link plumbing; only the invoice file name is modelled.
- Timers and concurrency: `setTimeout` banner clearing, the two-second delay of the simulated WhatsApp send, the loading and saving flags, and the order in which `Promise.all` settles. A failure inside `Promise.all` is modelled as the first failure in list order.
- `confirm` and `alert`: the answer to `confirm` is a `confirmed` parameter, and an alert is a returned message.
- Parent callbacks (`onDataUpdate`, `onSelectStudent`, `onBack`) and the pages' tab and modal switches.
- The event create, update and delete handlers and `eventService`: each is a single backend call with no logic of its own. Of the event page, the form, the selection, the recipients, the calendar and the colours are modelled.
- `userService`, the form modals, the sidebar, the app shell and the invoice view: no logic beyond rendering and single backend calls.
- JSX and styling, apart from the threshold and colour functions in the model table. `getFeeStatusColor`, `getRoleColor` and `getRoleIcon` are plain lookups and are not modelled.
- Text: `toLowerCase` and `toUpperCase` are modelled on ASCII letters only. String length is the number of `char`s, not UTF-16 code units.
- Numbers: JavaScript doubles are reals or integers. Overflow and floating-point rounding error are not modelled. A non-finite quotient is an `Option` or an IEEE comparison outcome.
- The notification message text and the joined phone numbers: they are only logged.
- StudentTable.SortedStudents: states a sorted permutation, not that students with equal keys keep their input order as the stable `Array.prototype.sort` does.
- FeeService.FeeTables.EnsureCurrentMonthRecords: generates the current month with the corrected insert-only semantics of the finding below (`FeeService.InsertMissing`), not with the upsert of `createFeeRecordsForMonth` that src/services/feeService.ts:175-182 calls. The as-written effect, which resets every existing record of the month to 'not started' and keeps its paid date, is modelled by `FeeService.FeeTables.CreateFeeRecordsForMonth` and proved by `FeeService.CreateOverwritesStatus`.
- FeeManagement.FeePage.InitializeData: inherits the line above, so on page load the model keeps the month's existing records, where src/components/FeeManagement.tsx:55-71 as written resets them.
- The display fallback `|| 0` of the academics progress cards (src/components/AcademicsManagement.tsx:271-273) is styling and is not modelled.

## Findings

| source | as written | input that shows it | evidently intended | confidence | as-written member | corrected member |
|---|---|---|---|---|---|---|
| src/services/feeService.ts:58-62 | opening the fee page regenerates the current month with an upsert on (student_id, month), which resets every existing record of the month to 'not started' and keeps its paid_date | a record paid on 2025-01-05 for month 2025-01; after the regeneration it is 'not started' and still has a paid date | only the students without a record for the month get a generated one; existing records keep their status and paid date | not executed | FeeService.CreateBreaksPaidDateRule | FeeService.InsertMissing |

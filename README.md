# Training compliance roster — a Dafny model

The application keeps a roster of employees. Each employee has a date of their
last safety training and, optionally, further trainings that expire after a
number of months. The model covers the rules that decide compliance and the
operations built on them:

- the 90-day / 75-day status of an employee (`Roster`);
- when an additional training expires (`TrainingChecks`, `EmployeeForm`);
- the analytics summary and the per-organisation / per-manager compliance
  groups (`Analytics`);
- the dashboard counters and charts (`Dashboard`);
- the filtered and sorted employee table (`Table`);
- the roster list of the main screen: add, update, delete, retrain,
  organisation filter and the CSV export (`App`);
- the employee form: validation, field changes, training rows (`EmployeeForm`);
- the organisation document checklist (`OrgManager`);
- the toast notification list (`Notifications`);
- the CSV export of one worker's trainings (`WorkerCsv`);
- the Telegram webhook bot: secret check, allow-list, command parsing and
  the replies to `/help`, `/id`, `/stats`, `/new`, `/expired` and `/org`
  (`TelegramBot`).

Supporting modules:

- `Dates`: a proleptic Gregorian calendar over millisecond instants. It
  models `new Date(y, m, d)`, `setDate`, `setMonth`, midnight and whole-day
  differences. A date-only string is midnight UTC; `setMonth` and
  `setHours` work in the browser's zone, a fixed offset from UTC that the
  form and the training checks take as a parameter.
- `Text`: trim, lower case, split, join, index of, lexicographic order.
- `Lists` and `Sorting`: filter, distinct, sums, an in-place insertion sort
  over a total preorder.
- `Wrappers`: `Option`.

Pure code (the helpers, the analytics rows, the bot's parsing, the CSV
encoders) is modelled as functions with lemmas. Code that loops is modelled
as methods proved against those functions: the tallies of `groupCompliance`,
the counting objects of the dashboard, the timer loop of
`removeAllNotifications`, sorting. The React state of the components is a
class whose methods reassign its fields: the employee list of `App`, the form
state, the checklist table, the table's sort and filter state, the
notification list.

`setMonth` overflows: 31 January plus one month is 3 March, not the end of
February (`Dates.Jan31PlusOneMonth`, `TrainingChecks.Jan31TrainingExpiry`).

## Model

| member | source | states |
|---|---|---|
| Roster.StatusByDays | src/utils/analytics.js:3-7 | expired exactly at 90 days or more, warning exactly from 75 to 89 days, valid below 75 |
| Roster.DaysDifference | src/App.jsx:293-296 | the whole number of days between the training midnight and now, rounded down |
| Roster.DaysDifferenceMonotone | src/App.jsx:293-296 | the day count never decreases as time passes |
| Roster.StatusMonotone | src/utils/analytics.js:3-7 | an expired employee stays expired later; a valid one was valid earlier |
| Dates.FloorDiv | src/App.jsx:295 | `Math.floor` of a division by a positive divisor |
| Dates.CeilDiv | src/components/EmployeeForm.jsx:121 | `Math.ceil` of a division by a positive divisor |
| Dates.DaysInMonth | src/components/utils/helpers.js:6 | every month has 28 to 31 days |
| Dates.AddDays | src/utils/analytics.js:18-19 | `setDate(getDate() + n)` moves the instant by exactly n days |
| Dates.AddMonthsBounds | src/components/utils/helpers.js:5-6 | adding n months moves a date by 28n to 31n days |
| Dates.DayOverflow | src/components/utils/helpers.js:6 | a day past the month's end rolls over into the next month |
| Dates.MonthCarry | src/components/utils/helpers.js:6 | month 12 of a year is January of the next |
| Dates.Jan31PlusOneMonth | src/components/utils/helpers.js:5-6 | 31 January 2023 plus one month is 3 March 2023 |
| Dates.LocalMidnight | src/components/EmployeeForm.jsx:119-120 | `setHours(0, 0, 0, 0)` in the local zone: the last local midnight at or before the instant |
| Dates.LocalMidnightReached | src/components/EmployeeForm.jsx:119-121 | today's local midnight is past an instant exactly when the first local midnight after it has come |
| Dates.PrevDay | src/components/utils/helpers.js:4-6 | the calendar date before a real date is a real date one day earlier |
| Dates.StartOfDay | supabase/functions/telegram-webhook/index.ts:24-33 | the midnight at or before an instant, a multiple of a day |
| Dates.DaysBetween | supabase/functions/telegram-webhook/index.ts:35-39 | the floor of the difference in days |
| Dates.YearLength | src/components/utils/helpers.js:6 | consecutive years start 365 or 366 days apart |
| Dates.MonthsFillYear | src/components/utils/helpers.js:6 | the twelve months fill the year |
| TrainingChecks.ExpiryInstant | src/components/utils/helpers.js:4-7 | the expiry instant is a UTC midnight; at or east of UTC, or for a date after the first of a month, it is the date plus the months |
| TrainingChecks.WestOfUtcExpiry | src/components/utils/helpers.js:4-7 | at UTC−5 a one-month training of 1 March 2023 runs out on 29 March; at UTC on 1 April |
| TrainingChecks.HasExpiredAdditionalIff | src/components/utils/helpers.js:12-17 | true exactly when some training has a date and a truthy period (a typed "0" included) and is past its expiry |
| TrainingChecks.HasExpiredAdditionalPersists | src/components/utils/helpers.js:12-17 | once a training has expired it stays expired |
| TrainingChecks.ExpiryWindow | src/components/utils/helpers.js:2-9 | never expired before 28 days per month of validity, always expired after 31, in every zone |
| TrainingChecks.Jan31TrainingExpiry | src/components/utils/helpers.js:2-9 | a one-month training of 31 January is still valid on 3 March and expired just after, in every zone |
| TrainingChecks.TypedZeroExpiresOnReceipt | src/components/utils/helpers.js:3-8 | a period typed as "0" is truthy and expires right after the date received; a falsy period never expires |
| Analytics.OrDash | src/utils/analytics.js:29-30 | a missing name, organisation or manager is shown as a dash |
| Analytics.DaysToExpireIsRemainder | src/utils/analytics.js:18-21 | the days left are the days to the 90-day mark |
| Analytics.Dated | src/utils/analytics.js:12-13 | each employee with a training date as often as in the input, the others not at all |
| Analytics.DatedInOrder | src/utils/analytics.js:12-13 | the dated employees keep their input order: the selection of a concatenation is the concatenation of the selections |
| Analytics.Rows | src/utils/analytics.js:12-32 | row i derives from the i-th dated employee: its days, status, due date 90 calendar days after the training, days to it, and "—" for a missing organisation or manager |
| Analytics.StatusCountsPartition | src/utils/analytics.js:35-41 | valid, warning and expired counts add up to the row count |
| Analytics.CountStatuses | src/utils/analytics.js:35-41 | the counting loop returns the three status counts |
| Analytics.Percent | src/utils/analytics.js:43 | the share in percent; 0 when there are no rows |
| Analytics.ConformityRate | src/utils/analytics.js:43 | between 0 and 100; 0 for an empty roster |
| Analytics.AvgDaysOverdue | src/utils/analytics.js:45-52 | the mean of the days past the limit over the expired rows; 0 when none |
| Analytics.Upcoming | src/utils/analytics.js:54-55 | counts at most all the rows |
| Analytics.UpcomingMonotone | src/utils/analytics.js:64-69 | the 7-day count is at most the 14-day count, which is at most the 30-day count |
| Analytics.UpcomingSkipsOverdue | src/utils/analytics.js:54-55 | overdue rows are never counted as upcoming |
| Analytics.HorizonByDays | src/utils/analytics.js:54-55 | a row is upcoming within n days exactly when its day count is in the last n days before the limit |
| Analytics.GroupOf | src/utils/analytics.js:79-93 | a group's counts are the rows of that key by status; its rates are percentages of its total |
| Analytics.TallyRows | src/utils/analytics.js:79-87 | the tally loop counts every key once, in first-seen order |
| Analytics.Groups | src/utils/analytics.js:89-93 | one group per key, in key order, with totals summing to the tallies |
| Analytics.GroupCompliance | src/utils/analytics.js:76-98 | distinct group names, every row's key has a group, totals add up to the rows, ordered by rate |
| Analytics.ComputeAnalytics | src/utils/analytics.js:11-74 | the whole summary: counts, conformity, overdue mean, 7/14/30-day horizons, both groupings with distinct names and a group for every row |
| Analytics.EmptyAnalytics | src/utils/analytics.js:34-55 | an empty roster gives zero counts and zero rates |
| Table.GetStatusInfo | src/components/Table.jsx:11-20 | expired and warning by the thresholds, never both; the next date is 90 days after training |
| Table.ExpiredFromNextDate | src/components/Table.jsx:11-20 | expired exactly when now has reached the next training date |
| Table.NextSort | src/components/Table.jsx:22-28 | a click on the current ascending column makes it descending; any other click sorts ascending |
| Table.NextSortAlternates | src/components/Table.jsx:22-28 | repeated clicks on one column alternate the direction |
| Table.InOrderTotalPreorder | src/components/Table.jsx:53-72 | the row comparison is a total preorder for every column and direction |
| Table.Searched | src/components/Table.jsx:33-37 | keeps exactly the rows whose lower-cased name contains the lower-cased query, when the trimmed query is not empty |
| Table.ByStatus | src/components/Table.jsx:39-47 | keeps exactly the rows of the chosen status |
| Table.ByProfession | src/components/Table.jsx:49-51 | keeps exactly the rows of the chosen profession |
| Table.Filtered | src/components/Table.jsx:30-51 | keeps exactly the rows passing all three filters |
| Table.SortRows | src/components/Table.jsx:53-72 | a permutation of the rows, sorted by the chosen column and direction |
| Table.EmployeeTable.constructor | src/components/Table.jsx:6-9 | sorted by days, descending; no filter; empty search |
| Table.EmployeeTable.HandleSort | src/components/Table.jsx:22-28 | only the sort configuration changes |
| Table.EmployeeTable.SortedAndFiltered | src/components/Table.jsx:30-75 | exactly the passing rows, sorted |
| Table.Professions | src/components/Table.jsx:77-79 | "all" first, then each non-empty profession once, in the order of first appearance |
| Dashboard.NeedRetrain | src/components/Dashboard.jsx:29-32 | counts at most all employees |
| Dashboard.NeedRetrainGrows | src/components/Dashboard.jsx:29-32 | the count never decreases as time passes |
| Dashboard.OrgCount | src/components/Dashboard.jsx:33-36 | at most the employee count; zero exactly for an empty roster |
| Dashboard.CountBy | src/components/Dashboard.jsx:38-43 | the map holds each key seen, with its number of occurrences, in first-seen order |
| Dashboard.Entries | src/components/Dashboard.jsx:44-46 | one entry per distinct key with its count |
| Dashboard.CountsAddUp | src/components/Dashboard.jsx:38-46 | the chart values add up to the number of employees |
| Dashboard.PieData | src/components/Dashboard.jsx:38-46 | one slice per organisation with its head count; the slices sum to the roster size |
| Dashboard.BarData | src/components/Dashboard.jsx:48-56 | the five largest professions in descending count, none larger left out |
| Dashboard.TopByCount | src/components/Dashboard.jsx:52-55 | the first n entries by descending count, taken from the input |
| Dashboard.ExpiringSoon | src/components/Dashboard.jsx:58-68 | at most five employees of the window, each at most as often as there, within 1 to 30 days of the limit, the closest first, none closer left out |
| Dashboard.ComputeStats | src/components/Dashboard.jsx:28-70 | all dashboard figures together, with their bounds; pie and bar values are the exact counts, sorted by descending count; the expiring list is drawn from the 30-day window and sorted by descending days |
| App.FormatEmployee | src/App.jsx:279-291 | a stored row becomes an employee; a missing organisation, manager, photo or comment is empty and missing trainings an empty list; present values are kept |
| App.FormatDataForApp | src/App.jsx:279-291 | every stored row is formatted, in order |
| App.InsertReadsBack | src/App.jsx:149-164 | the inserted row reads back as the employee with its new id |
| App.NamedOrgs | src/App.jsx:57-60 | keeps exactly the non-empty organisations |
| App.Organizations | src/App.jsx:57-60 | each non-empty organisation once, in ascending order |
| App.FilteredEmployees | src/App.jsx:320-324 | "Все" keeps everyone; otherwise exactly the employees of that organisation |
| App.FilteredKeepsOrder | src/App.jsx:320-324 | filtering keeps the order of the list |
| App.ExpiredCount | src/App.jsx:327-331 | counts at most the filtered employees |
| App.ExpiredCountSplits | src/App.jsx:327-331 | expired plus not-expired is the filtered count |
| App.StatusText | src/App.jsx:343-347 | "Переподготовка" exactly at 90 days or more, otherwise "Актуален" |
| App.CsvLines | src/App.jsx:343-347 | one line per employee, in order |
| App.CsvLineSplits | src/App.jsx:343-347 | a line without semicolons in its cells splits back into its five cells |
| App.SemicolonInNameShiftsColumns | src/App.jsx:343-347 | a semicolon in a name makes the line split into six columns |
| App.ExportCsvLines | src/App.jsx:333-350 | the file starts with the byte-order mark; its lines are the header and one line per employee |
| App.Replaced | src/App.jsx:211-213 | the employee with the same id is replaced; the others stay |
| App.ReplacedKeepsIds | src/App.jsx:211-213 | replacing keeps the ids and is idempotent |
| App.Removed | src/App.jsx:236 | removes exactly the employees with that id, keeping each other one as often as before |
| App.RemovedKeepsOrder | src/App.jsx:236 | the employees that stay keep their order |
| App.RemoveAdded | src/App.jsx:167 | deleting a just-added employee restores the list |
| App.RetrainedList | src/App.jsx:262-264 | the employee with that id gets today as training date |
| App.RetrainedIsValid | src/App.jsx:252-275 | a retrained employee is valid on the same day |
| App.EmployeeList.constructor | src/App.jsx:279-291 | the list is the formatted stored rows |
| App.EmployeeList.AddEmployee | src/App.jsx:138-181 | rejects a missing name or date; a failed insert changes nothing; otherwise prepends the stored row |
| App.EmployeeList.UpdateEmployee | src/App.jsx:183-222 | rejects a missing name or date; a failed update changes nothing; otherwise replaces by id |
| App.EmployeeList.Delete | src/App.jsx:230-250 | nothing without confirmation or on a store failure; otherwise removes by id |
| App.EmployeeList.Retrain | src/App.jsx:252-275 | on success the employee's training date becomes today |
| EmployeeForm.With | src/components/EmployeeForm.jsx:125-138 | sets one field and keeps the others |
| EmployeeForm.ValidFormAccepted | src/components/EmployeeForm.jsx:31-48 | a form with no errors has a non-blank name and profession, a name and a date |
| EmployeeForm.CheckTrainingStatus | src/components/EmployeeForm.jsx:115-123 | no date or a falsy period gives "not expired, 0 days"; otherwise the ceiling of the days from today's local midnight to the expiry, expired at 0 or below |
| EmployeeForm.FormExpiredFromExpiry | src/components/EmployeeForm.jsx:115-123 | the form shows expired exactly from the first local midnight at or after the expiry instant |
| EmployeeForm.FormAndHelperRules | src/components/EmployeeForm.jsx:115-123 | the form alone says expired only at the expiry instant in UTC; the helper alone says expired exactly between the expiry instant and the next local midnight |
| EmployeeForm.MoscowExpiryDay | src/components/EmployeeForm.jsx:115-123 | at UTC+3, 10:00 on the expiry day, the helper says expired while the form shows one day left |
| EmployeeForm.HelperFlagImpliesForm | src/components/EmployeeForm.jsx:194-196 | when the helper finds an expired training, the form's list does too by the next local midnight (at once in UTC) |
| EmployeeForm.TypedZeroShownExpired | src/components/EmployeeForm.jsx:115-123 | a period typed as "0" shows "Истекло" exactly from the first local midnight after receipt; a falsy one shows not expired |
| EmployeeForm.StatusLabel | src/components/EmployeeForm.jsx:425-431 | "Истекло" when expired, "Скоро" within 30 days, "Актуально" otherwise |
| EmployeeForm.SoonMeansWithinAMonth | src/components/EmployeeForm.jsx:425-431 | "Скоро" means 1 to 30 days left |
| EmployeeForm.NewRowKind | src/components/EmployeeForm.jsx:151-162 | a new row takes the first training type, or "Прочее" |
| EmployeeForm.Apply | src/components/EmployeeForm.jsx:171-178 | changes one field of a training row and keeps its id |
| EmployeeForm.UpdatedRows | src/components/EmployeeForm.jsx:171-178 | changes exactly the rows with that id |
| EmployeeForm.UpdatedRowsIdempotent | src/components/EmployeeForm.jsx:171-178 | keeps the ids; applying the same change twice is applying it once |
| EmployeeForm.RemovedRows | src/components/EmployeeForm.jsx:164-169 | removes exactly the rows with that id, keeping each other one as often as before |
| EmployeeForm.RemovedRowsKeepOrder | src/components/EmployeeForm.jsx:164-169 | the rows that stay keep their order |
| EmployeeForm.RemoveAddedRow | src/components/EmployeeForm.jsx:151-169 | removing a just-added row restores the list |
| EmployeeForm.EmployeeFormState.constructor | src/components/EmployeeForm.jsx:16-26 | an empty form, or the edited employee's data |
| EmployeeForm.EmployeeFormState.Validate | src/components/EmployeeForm.jsx:31-48 | one message per missing required field; valid exactly when there are none |
| EmployeeForm.EmployeeFormState.HandleChange | src/components/EmployeeForm.jsx:125-138 | sets the field and clears its error |
| EmployeeForm.EmployeeFormState.HandleAddNewOrg | src/components/EmployeeForm.jsx:140-148 | a non-blank answer becomes the organisation; otherwise nothing changes |
| EmployeeForm.EmployeeFormState.AddTrainingRow | src/components/EmployeeForm.jsx:151-162 | appends a row dated today, of the first type, valid for 12 months |
| EmployeeForm.EmployeeFormState.RemoveTrainingRow | src/components/EmployeeForm.jsx:164-169 | removes the rows with that id |
| EmployeeForm.EmployeeFormState.UpdateTrainingRow | src/components/EmployeeForm.jsx:171-178 | updates the rows with that id |
| OrgManager.UniqueOrgs | src/components/OrganizationManager.jsx:11-14 | each non-empty organisation once, in the order of first appearance; nothing without a roster |
| OrgManager.DefaultDocs | src/components/OrganizationManager.jsx:43-50 | the six documents, none ticked |
| OrgManager.DefaultDocsHasSix | src/components/OrganizationManager.jsx:43-50 | six different document names |
| OrgManager.FindRow | src/components/OrganizationManager.jsx:53 | the first row with that name, or none |
| OrgManager.RowFor | src/components/OrganizationManager.jsx:30-33 | the stored row for the organisation, or a default checklist |
| OrgManager.Merge | src/components/OrganizationManager.jsx:30-33 | one row per organisation, in order |
| OrgManager.MergedNamesDistinct | src/components/OrganizationManager.jsx:11-33 | the merged rows have different names |
| OrgManager.Toggled | src/components/OrganizationManager.jsx:56 | flips one document; a missing one becomes ticked; the others stay |
| OrgManager.ToggledTwice | src/components/OrganizationManager.jsx:56 | flipping a document twice restores the checklist |
| OrgManager.Checked | src/components/OrganizationManager.jsx:52-58 | the rows of that organisation get the flipped checklist; the others stay |
| OrgManager.CheckedTwice | src/components/OrganizationManager.jsx:52-58 | checking the same document twice restores the table |
| OrgManager.WithColumn | src/components/OrganizationManager.jsx:67-74 | every row gets the new document unticked; the others stay |
| OrgManager.CheckNewColumn | src/components/OrganizationManager.jsx:53-74 | a new column can then be ticked |
| OrgManager.OrganizationManager.FetchDocs | src/components/OrganizationManager.jsx:20-41 | the table becomes the merge; a failed query changes nothing |
| OrgManager.OrganizationManager.HandleCheck | src/components/OrganizationManager.jsx:52-65 | the table becomes the checked rows |
| OrgManager.OrganizationManager.AddColumn | src/components/OrganizationManager.jsx:67-74 | an empty or cancelled answer changes nothing |
| Notifications.NewNotification | src/hooks/useNotification.js:12-26 | the id is the current instant; default type "success"; a timer exactly for a positive duration |
| Notifications.Without | src/hooks/useNotification.js:31-39 | removes exactly the notifications with that id |
| Notifications.WithoutAdded | src/hooks/useNotification.js:16-39 | removing a just-added notification restores the list |
| Notifications.WithoutKeepsOrder | src/hooks/useNotification.js:36 | removal keeps the order of the others |
| Notifications.FirstHasTimerPresent | src/hooks/useNotification.js:32-35 | a timer is cancelled only for a notification that is there |
| Notifications.TimerCount | src/hooks/useNotification.js:42-46 | zero exactly when no notification has a timer |
| Notifications.NotificationList.constructor | src/hooks/useNotification.js:10 | the list starts empty |
| Notifications.NotificationList.Add | src/hooks/useNotification.js:12-29 | appends the new notification and returns its id |
| Notifications.NotificationList.Remove | src/hooks/useNotification.js:31-39 | removes by id and reports whether a timer was cancelled |
| Notifications.NotificationList.RemoveAll | src/hooks/useNotification.js:41-48 | cancels every timer and empties the list |
| WorkerCsv.EscapeCell | src/utils/downloadWorkerTrainings.js:6-10 | a missing value is empty; a cell with a separator, quote or line break is quoted |
| WorkerCsv.ReadCellEscaped | src/utils/downloadWorkerTrainings.js:6-10 | an escaped cell reads back as the original text |
| WorkerCsv.ReadDocumentEncoded | src/utils/downloadWorkerTrainings.js:62-72 | a document of escaped records reads back as those records |
| WorkerCsv.SanitizedNameIsSafe | src/utils/downloadWorkerTrainings.js:18-25 | no forbidden character, no double space, no edge space; a blank name becomes "Обучения" |
| WorkerCsv.ForbiddenOnlyName | src/utils/downloadWorkerTrainings.js:18-25 | a name of forbidden characters only is emptied, not replaced by the fallback |
| WorkerCsv.Coalesce | src/utils/downloadWorkerTrainings.js:27-32 | the first present value |
| WorkerCsv.MapTraining | src/utils/downloadWorkerTrainings.js:27-32 | title from title then type, date from completed_at then dateReceived then date, certificate from certificate_url then certificate then url, hours from hours then duration; "" when none is present |
| WorkerCsv.TrainingRows | src/utils/downloadWorkerTrainings.js:62-70 | one row of cells per training, in order |
| WorkerCsv.CsvReadsBack | src/utils/downloadWorkerTrainings.js:72 | the file is the byte-order mark, then the headers and the rows, readable back |
| WorkerCsv.ExportOf | src/utils/downloadWorkerTrainings.js:72-81 | the export names the sanitised file and counts the trainings |
| WorkerCsv.DownloadWorkerTrainings | src/utils/downloadWorkerTrainings.js:34-82 | an error fails, with the missing-table message for 404 or PGRST301; no trainings gives count 0 |
| TelegramBot.ToNumber | supabase/functions/telegram-webhook/index.ts:16 | a string of digits is that number; with a leading minus sign its negative; anything else is `NaN` |
| TelegramBot.ParseIntPrefix | supabase/functions/telegram-webhook/index.ts:213 | a string of digits is that number |
| TelegramBot.AllowEntries | supabase/functions/telegram-webhook/index.ts:11-15 | every non-blank trimmed entry is kept; no entry is empty |
| TelegramBot.BlankAllowListAllowsAll | supabase/functions/telegram-webhook/index.ts:10-17 | a blank list allows every chat |
| TelegramBot.ListedChatAllowed | supabase/functions/telegram-webhook/index.ts:10-17 | a listed chat id is allowed |
| TelegramBot.ListedGroupChatAllowed | supabase/functions/telegram-webhook/index.ts:10-17 | a listed negative (group) chat id, written with a minus sign, is allowed |
| TelegramBot.MistypedAllowListDeniesAll | supabase/functions/telegram-webhook/index.ts:10-17 | a single non-numeric entry denies every chat |
| TelegramBot.IsTodayIffSameMidnight | supabase/functions/telegram-webhook/index.ts:24-33 | today means the same midnight as now |
| TelegramBot.DaysSince | supabase/functions/telegram-webhook/index.ts:35-39 | the floor of the days since the date |
| TelegramBot.DaysSinceMatchesApp | supabase/functions/telegram-webhook/index.ts:35-39 | the bot's day count equals the web application's |
| TelegramBot.Normalize | supabase/functions/telegram-webhook/index.ts:64-66 | the result has no edge space |
| TelegramBot.NormalizeIdempotent | supabase/functions/telegram-webhook/index.ts:64-66 | normalising twice is normalising once |
| TelegramBot.FindCommandEntity | supabase/functions/telegram-webhook/index.ts:73 | the first command entity at offset 0, or none |
| TelegramBot.StripBot | supabase/functions/telegram-webhook/index.ts:82 | the command has no bot suffix |
| TelegramBot.GetCommand | supabase/functions/telegram-webhook/index.ts:70-85 | the command has no bot suffix |
| TelegramBot.GetCommandByEntity | supabase/functions/telegram-webhook/index.ts:73-77 | with a command entity at offset 0 and a length n, the command is the first n characters (all when n is larger) and the argument the trimmed rest |
| TelegramBot.GetCommandByWord | supabase/functions/telegram-webhook/index.ts:78-83 | without such an entity, the command is the first word and the argument the trimmed rest |
| TelegramBot.GetCommandRoundTrip | supabase/functions/telegram-webhook/index.ts:70-85 | "/cmd@bot arg" parses back to the command and the argument |
| TelegramBot.GetCommandOfWord | supabase/functions/telegram-webhook/index.ts:76-83 | without entities, the first word is the command and the rest, trimmed, the argument |
| TelegramBot.BotRowOf | supabase/functions/telegram-webhook/index.ts:130-148 | one status flag by the thresholds; overdue days past 90 only when expired |
| TelegramBot.BotDated | supabase/functions/telegram-webhook/index.ts:130-131 | each employee with a training date as often as loaded, the others not at all |
| TelegramBot.BotRows | supabase/functions/telegram-webhook/index.ts:130-148 | row i is the row of the i-th employee with a training date; every row carries exactly one flag |
| TelegramBot.BotRowsCount | supabase/functions/telegram-webhook/index.ts:130-131 | one row per employee with a training date |
| TelegramBot.BotCountsPartition | supabase/functions/telegram-webhook/index.ts:150-152 | the three counts add up to the rows |
| TelegramBot.ExpiredOnly | supabase/functions/telegram-webhook/index.ts:176-196 | each expired row as often as in the rows, no other row; as many as the expired count |
| TelegramBot.MeanOverdue | supabase/functions/telegram-webhook/index.ts:176-196 | the mean overdue days, 0 for none |
| TelegramBot.Stats | supabase/functions/telegram-webhook/index.ts:176-196 | the counts partition the rows; the rate and the mean agree with them |
| TelegramBot.AddedToday | supabase/functions/telegram-webhook/index.ts:199-200 | each employee created today as often as loaded, the others not at all |
| TelegramBot.CreatedToday | supabase/functions/telegram-webhook/index.ts:199-201 | line i names the i-th employee created today; one line per such employee |
| TelegramBot.NewShown | supabase/functions/telegram-webhook/index.ts:198-210 | the first 40 lines at most; all of them when there are no more |
| TelegramBot.ExpiredLimit | supabase/functions/telegram-webhook/index.ts:213 | between 1 and 50 |
| TelegramBot.ExpiredLimitCases | supabase/functions/telegram-webhook/index.ts:213 | 10 by default, for 0 or for text; the number when 1 to 50; 50 above |
| TelegramBot.TakeOfSorted | supabase/functions/telegram-webhook/index.ts:215-219 | the first rows of a sorted list are the largest ones |
| TelegramBot.ExpiredTop | supabase/functions/telegram-webhook/index.ts:215-219 | the limit most overdue expired rows, in descending order |
| TelegramBot.OrgRows | supabase/functions/telegram-webhook/index.ts:235 | each row whose normalised organisation contains the query, as often as in the rows, no other row |
| TelegramBot.OrgSummary | supabase/functions/telegram-webhook/index.ts:235-240 | total, valid, warning and expired count the selected rows; the rate is valid over total in percent, 0 to 100 |
| TelegramBot.OrgQueryIgnoresCase | supabase/functions/telegram-webhook/index.ts:229-235 | normalising the query again changes nothing |
| TelegramBot.HandleUpdate | supabase/functions/telegram-webhook/index.ts:87-258 | a wrong secret is refused; access denied exactly for a chat not allowed; data only to allowed chats; with the right secret, the plain acknowledgement exactly when there is no message, no chat or no text |
| TelegramBot.HandleMessage | supabase/functions/telegram-webhook/index.ts:103-118 | the plain acknowledgement exactly when there is no message, no chat or no text; access denied exactly for a chat not allowed |
| TelegramBot.HandleCommand | supabase/functions/telegram-webhook/index.ts:115-255 | access denied exactly for a chat not allowed |
| TelegramBot.Answer | supabase/functions/telegram-webhook/index.ts:120-255 | a database error exactly when the query fails |
| TelegramBot.Dispatch | supabase/functions/telegram-webhook/index.ts:156-255 | each known command gets exactly its own reply with its figures; the /expired list holds the most overdue rows, none left out more overdue than one shown; the /org usage exactly for an empty query; the fallback exactly for any other command |
| Lists.Filter | src/utils/analytics.js:13 | keeps exactly the elements that pass, with their multiplicities |
| Lists.FilterConcat | src/utils/analytics.js:13 | filtering distributes over concatenation |
| Lists.Distinct | src/components/Table.jsx:77-79 | each element once, nothing else |
| Lists.DistinctInOrder | src/components/Dashboard.jsx:38-43 | the distinct elements keep their first-seen order |
| Lists.FilterFirstIndex | src/components/Table.jsx:78 | filtering keeps the order in which values first appear |
| Lists.SortStrings | src/App.jsx:60 | a permutation in ascending string order |
| Sorting.SortInPlace | src/components/Table.jsx:53-72 | the array is sorted and a permutation of what it was |
| Sorting.SumByPerm | src/components/Dashboard.jsx:38-46 | a permutation has the same sum |
| Text.TrimEmptyIffAllSpace | src/components/EmployeeForm.jsx:34-44 | trimming gives the empty string exactly for an all-space string |
| Text.TrimIdempotent | supabase/functions/telegram-webhook/index.ts:65 | trimming twice is trimming once |
| Text.ToLowerTrim | supabase/functions/telegram-webhook/index.ts:65 | lower-casing and trimming commute |
| Text.ToLowerIdempotent | supabase/functions/telegram-webhook/index.ts:65 | lower-casing twice is lower-casing once |
| Text.SplitJoin | src/App.jsx:343-350 | joining parts without the separator and splitting gives the parts back |
| Text.StrLessTotal | src/App.jsx:60 | any two different strings are ordered |
| Text.StrLessTransitive | src/App.jsx:60 | string order is transitive |

## Left out

- Network and storage: the Supabase queries, the Telegram API and the browser
  download are parameters of the operations. Each parameter is an `Option` or
  a flag saying whether the store succeeded. The bot's reply is a datatype,
  not the message text.
- Clocks: "now" and "today" are parameters. Instants are whole
  milliseconds.
- Time zones: the browser's zone is a fixed offset; daylight-saving changes
  are not modelled. The bot runs on a UTC server. Elsewhere the app only
  subtracts instants or adds whole days, which no fixed offset changes.
- `TrainingChecks.ExpiryWindow`, `TrainingChecks.TypedZeroExpiresOnReceipt`,
  `EmployeeForm.TypedZeroShownExpired`: west of UTC they are stated for real
  calendar dates (`ValidDate`), the only ones the date input produces.
- Timers: `setTimeout`/`clearTimeout` are not modelled. Only whether a
  notification has a timer is kept, and `Remove`/`RemoveAll` report what
  they would cancel.
- Formatting: `toLocaleDateString`, `toFixed` and the message texts of the bot
  and the toasts are left out. Date cells of the CSV exports are produced by
  a date-formatting function passed as a parameter.
- Date parsing: the form holds dates as text and the model takes them as
  already-parsed calendar dates. Invalid date strings (`Invalid Date`) are
  not modelled.
- Rendering, React effects and loading or skeleton states are left out.
- `Dashboard.PieData`, `Dashboard.BarData`, `Dashboard.CountBy`: the counts
  live in plain objects. `Object.entries` lists integer-like keys first; the
  model keeps insertion order for every key. A key named after an
  `Object.prototype` member is not modelled either: "constructor" or
  "toString" starts from the inherited function and counts to a string, and
  "__proto__" never shows up in `Object.entries`; the model counts every key
  alike.
- `Dashboard.BarData`, `Dashboard.ExpiringSoon`, `TelegramBot.ExpiredTop`,
  `Table.SortRows`, `Analytics.GroupCompliance`: ties are ordered by the insertion sort, which is stable like the browser's
  sort, but the model does not state stability.
- `Table.Professions`: a profession literally named "all" would collide with
  the "all" option; the model keeps the code's behaviour and does not
  separate them.
- `EmployeeForm.CheckTrainingStatus`: a period that is a non-empty string
  `parseInt` cannot read (".5", "e", which the number input lets one type)
  is truthy, so the code computes an invalid expiry date and shows
  `daysLeft` NaN with the label "Актуально (NaN)"; the model has no NaN day
  count and reads such a period as missing, giving 0 days and "Скоро". The
  expired flag (false) is the same either way.
- `OrgManager.OrganizationManager.FetchDocs`: a query that returns `null`
  data without an error is treated like an empty result.
- `TelegramBot.GetCommand`: its own contract only says the command has no
  bot suffix; what it parses, in both the entity and the first-word case,
  is stated by `GetCommandByEntity`, `GetCommandByWord`,
  `GetCommandRoundTrip` and `GetCommandOfWord`.
- `TelegramBot.ToNumber`: non-decimal forms of `Number` (hexadecimal,
  exponents, fractions) are read as not-a-number.
- `App.EmployeeList.AddEmployee`: assumes the store returns the one inserted
  row.
- `Notifications.NotificationList.Add`: two notifications added in the same
  millisecond share an id, and removing one removes both, as in the code.
- `Lists.SortStrings`, `Text.StrLess`: strings compare by Unicode code point
  where JavaScript compares UTF-16 code units; the two orders differ only for
  characters outside the Basic Multilingual Plane.
- `Text.ToLower`: lower-cases only the capitals of basic Latin, Latin-1,
  Greek and Cyrillic, one character for one; JavaScript's `toLowerCase`
  maps all of Unicode and can change the length ("İ" becomes two code
  units). This affects `Table.Searched`, the table's text sort keys and
  `TelegramBot.Normalize`, and the `/org` query built on it.
- Floating point: rates and means are exact rationals (`real`), not IEEE
  doubles.

# Sasol training attendance — a Dafny model of the core

This project models the core of the Sasol training-attendance system: the backend that
registers employees for training sessions, records their check-in and their
post-training declaration, and reminds them by email; and the pure helpers of the React
client that validate, filter and format training data. Everything runs over an in-memory
store with integer millisecond timestamps and an explicit `now`. The database, the mail
transport and the clock are not modelled.

- `basics.dfy`, `strings.dfy`, `seqs.dfy`: `Option`/`Result`, ASCII string helpers
  (`toLowerCase`, `includes`, `split`, `parseInt`, number formatting), and sequence
  helpers (filter, subsequence, sort by key, `LIMIT`/`OFFSET`, sums).
- `models.dfy`: the Sequelize models as datatypes. They cover the status and method enums
  and their string names, nullable columns as `Option`, and defaults. The store and its
  validity invariant come from the associations: unique ids, at most one record per
  (user, training) pair, at most one declaration per record, and foreign keys that hold.
- `errors.dfy`, `outcomes.dfy`: the `ApiError` cases, and a controller result that
  carries the new store, the response and the messages the operation tried to send.
- `attendance.dfy`: `registerForTraining`, `checkInToTraining`, `submitDeclaration` and
  `markAttendanceManually` as store transitions.
- `training.dfy`: create/update date guard, delete guard, the listing query with
  pagination, and the upcoming and mandatory projections.
- `notifications.dfy`: `sendNotification` dispatch, the session-reminder and
  declaration-reminder sweeps as pure selections, and the sequential send loop.
- `auth.dfy`: Bearer-header parsing, `authenticate` with the JWT verifier as a
  parameter, and `authorize`.
- `app.dfy`: the `ProtectedRoute` decision and the admin-only routes.
- `mockapi.dfy`: the mock API's interceptor registry, token generation and parsing,
  `login` and `me`.
- `dateutils.dfy`, `admindashboard.dfy`: the two "time ago" formatters and the
  pending-declaration total.
- `addtrainingmodal.dfy`, `trainingmanagement.dfy`, `traininglist.dfy`,
  `usermanagement.dfy`, `myattendance.dfy`: the form validation and the list filters,
  id generation, row selection and status badges of the client pages.

## Model

| member | source | states |
|---|---|---|
| Models.ParseAttendanceStatus | backend/src/models/attendance.model.js:8-11 | a status string is accepted exactly when it names one of registered/attended/missed/canceled, and the parsed value names it |
| Models.ParseAttendanceMethod | backend/src/models/attendance.model.js:24-27 | a method string is accepted exactly when it names one of qr-code/manual/virtual/self-declared |
| Models.ParseTrainingStatus | backend/src/models/training.model.js:48-51 | a training status is accepted exactly when it names one of scheduled/in-progress/completed/cancelled |
| Models.EnumNamesRoundTrip | backend/src/models/attendance.model.js:8-27 | parsing the name of any enum value gives that value back |
| Models.NewAttendance | backend/src/models/attendance.model.js:8-36 | a new record defaults to status registered, with no check-in time, method, verifier or notes |
| Models.NewDeclaration | backend/src/models/declaration.model.js:26-38 | a new declaration defaults to compliant, with no compliance notes |
| Models.FindTraining | backend/src/models/index.js:34-35 | the lookup finds a session with that id exactly when one exists |
| Models.FindUser | backend/src/models/index.js:37-38 | the lookup finds a user with that id exactly when one exists |
| Models.FindRole | backend/src/models/index.js:31-32 | the lookup finds a role with that id exactly when one exists |
| Models.PairIndex | backend/src/controllers/attendance.controller.js:31-37 | gives the position of the record for a (user, training) pair, or the length when there is none |
| Models.EmptyStoreValid | backend/src/models/index.js:31-41 | a store without sessions, records or declarations satisfies every association invariant |
| Models.AtMostOneRecord | backend/src/models/index.js:34-41 | in a valid store at most one record exists for each (user, training) pair |
| Models.ValidAfterInsertAttendance | backend/src/models/index.js:34-38 | adding a fresh record for an existing user and session, for a pair that has none yet, keeps the store valid |
| Models.ValidAfterUpdateAttendance | backend/src/models/index.js:34-41 | rewriting a record while keeping its id, user and session keeps the store valid |
| Models.ValidAfterInsertDeclaration | backend/src/models/index.js:40-41 | adding the first declaration of an existing record keeps the store valid |
| Models.ValidAfterInsertTraining | backend/src/models/training.model.js:8-23 | adding a session with a fresh id keeps the store valid |
| Models.ValidAfterUpdateTraining | backend/src/models/training.model.js:8-51 | rewriting a session while keeping its id keeps the store valid |
| Models.RemoveAtMembers | backend/src/controllers/training.controller.js:222-229 | removing position i leaves exactly the sessions whose id differs from that session's |
| Models.ValidAfterRemoveTraining | backend/src/controllers/training.controller.js:222-229 | removing a session that no record references keeps the store valid |
| AttendanceController.CreateAttendance | backend/src/controllers/attendance.controller.js:40-44 | inserting a record fails on a missing session or user, and otherwise appends one fresh registered record |
| AttendanceController.PairIndexAfterAppend | backend/src/controllers/attendance.controller.js:40-44 | after appending the first record of a pair, the pair is found at the old length |
| AttendanceController.PairIndexAfterUpdate | backend/src/controllers/attendance.controller.js:99-102 | rewriting the first record of a pair keeps it where the lookup finds it |
| AttendanceController.FindOrCreate | backend/src/controllers/attendance.controller.js:85-96 | an existing record is reused and the store is unchanged; otherwise one record is created and found |
| AttendanceController.Register | backend/src/controllers/attendance.controller.js:6-70 | checks run in a fixed order: unknown session, then start before now, then capacity over all records, then any existing record. Once every check passes, an unknown user is refused by the foreign key; otherwise one registered record is appended with the next key, and the call succeeds exactly when the confirmation is delivered. A failed send still keeps the record |
| AttendanceController.RegisterPreservesValid | backend/src/controllers/attendance.controller.js:6-70 | registration keeps the store valid, so no pair ever gets two records |
| AttendanceController.RegisterRespectsCapacity | backend/src/controllers/attendance.controller.js:22-28 | with a truthy capacity, a registration that writes a record leaves the session's record count at most the capacity |
| AttendanceController.RegisterTwiceFails | backend/src/controllers/attendance.controller.js:31-37 | once a registration has written its record, even with a failed send, registering the same pair again fails, writes nothing and sends nothing |
| AttendanceController.CheckInMethod | backend/src/controllers/attendance.controller.js:100 | a missing or empty method becomes manual; any other string must name a method |
| AttendanceController.CheckIn | backend/src/controllers/attendance.controller.js:73-112 | on a known session the pair's record ends attended with check-in time now and the given method, even if it was already attended. A missing record is created without any capacity check. An unknown method fails after a missing record was created, and that new registered record stays in the store; a missing record of an unknown user fails with no write |
| AttendanceController.CheckInFrame | backend/src/controllers/attendance.controller.js:73-112 | check-in leaves sessions, users and declarations alone and adds at most one record, only when the pair had none, with the next key |
| AttendanceController.CheckInKeepsOthers | backend/src/controllers/attendance.controller.js:73-112 | every record of another (user, session) pair keeps its position and contents |
| AttendanceController.CheckInPreservesValid | backend/src/controllers/attendance.controller.js:73-112 | check-in keeps the store valid; it never creates a second record for the pair |
| AttendanceController.OwnRecordIndex | backend/src/controllers/attendance.controller.js:120-127 | finds a record with that id owned by the caller, or reports that none exists |
| AttendanceController.DeclarationRepair | backend/src/controllers/attendance.controller.js:149-154 | an attended record is left alone; any other becomes attended and self-declared, keeping an existing check-in time |
| AttendanceController.SubmitDeclaration | backend/src/controllers/attendance.controller.js:115-164 | a record the caller does not own gives not-found; an existing declaration gives an error; a missing content is refused; failures leave the store unchanged. With an owned, undeclared record and content present it succeeds, adding exactly one declaration and repairing the record |
| AttendanceController.SubmitDeclarationPreservesValid | backend/src/controllers/attendance.controller.js:115-164 | declaration submission keeps the store valid |
| AttendanceController.SecondDeclarationRefused | backend/src/controllers/attendance.controller.js:130-136 | after one successful submission, the next one for the same record is refused and leaves the first declaration unchanged |
| AttendanceController.Marked | backend/src/controllers/attendance.controller.js:238-247 | the manual override sets status, notes, verifier and time; marking attended without a check-in time stamps it now as manual, otherwise time and method are kept |
| AttendanceController.MarkManually | backend/src/controllers/attendance.controller.js:221-259 | the pair's record is found or created (creation needs an existing session and user) and then marked. A status outside the enum fails after that creation, and the new registered record stays in the store. Other records are unchanged |
| AttendanceController.MarkManuallyPreservesValid | backend/src/controllers/attendance.controller.js:221-259 | the manual override keeps the store valid |
| TrainingController.CreateTraining | backend/src/controllers/training.controller.js:99-147 | start not before end is refused first; a missing title or date fails; success appends one scheduled session with a fresh id, every other field taken from the body and both flags false when left out |
| TrainingController.CreateTrainingPreservesValid | backend/src/controllers/training.controller.js:118-137 | creation keeps the store valid |
| TrainingController.Patched | backend/src/controllers/training.controller.js:171-180 | an update keeps the id; each field the body carries (title, description, dates, location, the flags, link, prerequisite, capacity, vendor, facilitator) replaces the stored one, and every field it leaves out keeps its stored value |
| TrainingController.TrainingIndex | backend/src/controllers/training.controller.js:171-175 | gives the position of the session with that id, or the length exactly when there is none |
| TrainingController.UpdateTraining | backend/src/controllers/training.controller.js:150-207 | an unknown id gives not-found; the date guard runs only when both dates are given; success rewrites exactly that session |
| TrainingController.UpdateTrainingPreservesValid | backend/src/controllers/training.controller.js:150-207 | an update keeps the store valid |
| TrainingController.UpdateWithBothDatesKeepsOrder | backend/src/controllers/training.controller.js:177-180 | an update carrying both dates leaves the session starting before it ends |
| TrainingController.UpdateWithOneDateIsUnchecked | backend/src/controllers/training.controller.js:177-198 | an update carrying only one date can leave the start at or after the end |
| TrainingController.DeleteTraining | backend/src/controllers/training.controller.js:210-238 | an unknown id gives not-found; any record of any status blocks the delete; success removes that session |
| TrainingController.DeleteRemovesExactlyThat | backend/src/controllers/training.controller.js:222-229 | on a valid store a delete removes exactly the sessions with that id and keeps the store valid |
| TrainingController.OrDefault | backend/src/controllers/training.controller.js:49-50 | a missing or zero page or limit falls back to its default |
| TrainingController.DateWindowBounds | backend/src/controllers/training.controller.js:17-29 | the three date branches amount to an inclusive bound for each date parameter that is given |
| TrainingController.SortedSelection | backend/src/controllers/training.controller.js:53-58 | the selection is a permutation of the matching sessions (as a multiset), ascending by start date |
| TrainingController.CeilDiv | backend/src/controllers/training.controller.js:61 | the page count is the least number of pages of that size that hold the rows |
| TrainingController.PageFrom | backend/src/controllers/training.controller.js:49-72 | one page holds the rows from the offset onwards, up to the limit, and reports the row total and page count |
| TrainingController.ListTrainings | backend/src/controllers/training.controller.js:6-76 | the listing fails exactly on a status outside the enum, a negative limit or a negative offset. Otherwise it is the page at offset (page-1)*limit, with page 1 and limit 10 by default, of the matching sessions in start-date order |
| TrainingController.ListedRowsMatch | backend/src/controllers/training.controller.js:11-58 | every listed row is a stored session that satisfies every filter |
| TrainingController.EveryMatchOnItsPage | backend/src/controllers/training.controller.js:49-61 | the matching session at position k appears on page k/limit+1, as row k mod limit |
| TrainingController.UpcomingTrainings | backend/src/controllers/training.controller.js:241-262 | at most ten scheduled sessions that have not started, ascending; any upcoming session left out starts no earlier than those shown; no session appears more often than it matches |
| TrainingController.Annotate | backend/src/controllers/training.controller.js:289-295 | a session carries the caller's record id and status exactly when the caller has a record for it |
| TrainingController.AnnotateAll | backend/src/controllers/training.controller.js:289-296 | one annotated entry per session, in order |
| TrainingController.MandatorySelectionFacts | backend/src/controllers/training.controller.js:270-277 | the mandatory selection holds stored, mandatory, scheduled sessions that have not started, in start order |
| TrainingController.MandatoryTrainings | backend/src/controllers/training.controller.js:265-305 | one entry per mandatory scheduled session that has not started, in start order, each annotated with the caller's record |
| TrainingController.MandatoryTrainingsComplete | backend/src/controllers/training.controller.js:270-296 | no mandatory scheduled session that has not started is missing from the list |
| Notifications.TemplateNamed | backend/src/services/notification.service.js:15-51 | each of the three template names selects its template, and only that name does; any other own name selects the generic body |
| Notifications.SendNotification | backend/src/services/notification.service.js:63-92 | an email goes to the transport, whose failure comes back as an error; any other kind sends nothing and succeeds |
| Notifications.LocationLabel | backend/src/services/notification.service.js:133 | an empty or missing location is shown as Virtual |
| Notifications.MeetingLinkFor | backend/src/services/notification.service.js:134 | the meeting link is included only for a virtual session |
| Notifications.DueTrainings | backend/src/services/notification.service.js:104-111 | the session sweep picks exactly the scheduled sessions starting in [now, now + 24 h], in order |
| Notifications.RemindEach | backend/src/services/notification.service.js:115-137 | one reminder for each record whose user has an email |
| Notifications.RemindEachMembership | backend/src/services/notification.service.js:115-137 | a message is among one session's reminders exactly when a record of that session, of any status, has a reachable user it is addressed to |
| Notifications.RemindersForAllMembership | backend/src/services/notification.service.js:113-139 | a message is among the reminders for a list of sessions exactly when it reminds a record of one of them |
| Notifications.SessionReminders | backend/src/services/notification.service.js:98-146 | the session sweep's messages, session by due session; every one is an email using the reminder template with session details (which messages appear: Notifications.SessionReminderSelection) |
| Notifications.SessionReminderSelection | backend/src/services/notification.service.js:98-146 | the session sweep emits exactly the reminders for due sessions, one per record whose user has an email |
| Notifications.SessionRemindersUseReminderTemplate | backend/src/services/notification.service.js:122-136 | every message of the session sweep is an email using the reminder template with session details |
| Notifications.RemindEachUsersOnly | backend/src/services/notification.service.js:115-118 | a session's reminders depend only on the records' users |
| Notifications.RecordsOfStatusBlind | backend/src/services/notification.service.js:115-118 | selecting a session's records does not look at their status |
| Notifications.SessionRemindersIgnoreStatus | backend/src/services/notification.service.js:115-118 | changing any record's status leaves the session sweep's messages unchanged |
| Notifications.AllStatusBlind | backend/src/services/notification.service.js:113-139 | stores that agree on users and on each record's user and session give the same session sweep |
| Notifications.DeclarationSelection | backend/src/services/notification.service.js:158-181 | the declaration sweep picks exactly the attended records checked in within [now - 7 days, now] that have no declaration |
| Notifications.DeclaredNeverSelected | backend/src/services/notification.service.js:161-181 | a record with any declaration, compliant or not, is never selected |
| Notifications.DeclarationNotices | backend/src/services/notification.service.js:184-198 | one "declaration missing" message per selected record whose user has an email |
| Notifications.DeclarationReminders | backend/src/services/notification.service.js:152-205 | the declaration sweep sends as many messages as there are selected records with a reachable user |
| Notifications.DeclarationNoticesMembership | backend/src/services/notification.service.js:184-198 | a message is among the notices exactly when it is the reminder for one of the records |
| Notifications.DeclarationReminderSelection | backend/src/services/notification.service.js:152-205 | the declaration sweep emits exactly the reminders for awaiting records whose user has an email |
| Notifications.Dispatch | backend/src/services/notification.service.js:113-145 | messages go out in plan order and a failed send is re-thrown: the sweep gets exactly as far as the first failing send (the whole plan when none fails), reports failure exactly when some send fails, and its mails are exactly the accepted mails of the messages before that point, in plan order |
| Notifications.MailsOfMembers | backend/src/services/notification.service.js:113-145 | every mail a sweep sends is the transport's answer to one message of its plan |
| Notifications.MailsOfAllEmails | backend/src/services/notification.service.js:113-145 | when every message is an email and every send succeeds, each message yields one mail |
| Auth.BearerFields | backend/src/middleware/auth.js:15 | the token of "Bearer " + t is the part of t before its first space |
| Auth.BearerToken | backend/src/middleware/auth.js:9-15 | a missing header, or one not starting with "Bearer ", is unauthorized; otherwise the token is the second space-separated field |
| Auth.BearerRoundTrip | backend/src/middleware/auth.js:10-15 | a space-free token placed after "Bearer " is read back unchanged |
| Auth.FindActiveUser | backend/src/middleware/auth.js:19-22 | finds an active user with that id exactly when one exists |
| Auth.RoleNameOf | backend/src/middleware/auth.js:34 | the role name is that of the user's role when the role exists, otherwise none |
| Auth.Authenticate | backend/src/middleware/auth.js:6-45 | every failure is unauthorized; success requires a Bearer header, a token the verifier accepts and an active user, and copies that user's fields |
| Auth.Authorize | backend/src/middleware/auth.js:48-60 | a missing user or an empty role is unauthorized; a role outside the list is forbidden; a listed role passes |
| Auth.AuthorizeMonotone | backend/src/middleware/auth.js:54-58 | allowing more roles never turns a pass into a refusal |
| Auth.RolelessUserUnauthorized | backend/src/middleware/auth.js:50-52 | a user without a role is unauthorized whatever roles are allowed |
| App.ProtectedRoute | frontend/src/App.js:33-53 | loading renders nothing first; no user redirects to /login; a non-empty role list without the user's role redirects to /dashboard; otherwise the children render |
| App.AdminPage | frontend/src/App.js:81-105 | an admin page renders exactly for a signed-in user whose role is admin or esd_admin |
| App.DashboardRedirectSettles | frontend/src/App.js:47-49 | a user redirected to /dashboard is admitted by a guard that lists no roles, as the dashboard route's does, so the redirect does not loop |
| App.MoreRolesAdmitMore | frontend/src/App.js:47-52 | adding roles to a route never shuts out a user it admitted |
| MockApi.NewManager | frontend/src/services/mockApi.js:121-123 | a new registry is empty and well formed |
| MockApi.Use | frontend/src/services/mockApi.js:125-133 | the returned id is the number of handlers registered before; earlier slots are kept |
| MockApi.Eject | frontend/src/services/mockApi.js:135-139 | the slot becomes empty, the length and other slots are kept, and an unknown id changes nothing |
| MockApi.LiveMembers | frontend/src/services/mockApi.js:141-147 | a handler is live exactly when some slot holds it |
| MockApi.ForEach | frontend/src/services/mockApi.js:141-147 | forEach visits exactly the live handlers, in order |
| MockApi.LiveSnoc | frontend/src/services/mockApi.js:125-133 | registering a handler appends it to the live ones |
| MockApi.UseThenForEach | frontend/src/services/mockApi.js:125-147 | after use, forEach visits the old handlers and then the new one |
| MockApi.Without | frontend/src/services/mockApi.js:135-147 | the handlers other than the one with that id |
| MockApi.WithoutCons | frontend/src/services/mockApi.js:135-147 | removing by id commutes with prepending a handler |
| MockApi.WithoutAbsent | frontend/src/services/mockApi.js:135-139 | removing an id that is not present changes nothing |
| MockApi.LiveCons | frontend/src/services/mockApi.js:141-147 | the live handlers of a registry are its first slot's handler, if any, followed by the rest |
| MockApi.IdsFromTail | frontend/src/services/mockApi.js:125-133 | the tail of a well-formed registry is well formed from the next id |
| MockApi.LiveClearFirst | frontend/src/services/mockApi.js:135-147 | emptying the first slot removes exactly its handler from the live ones |
| MockApi.LiveClear | frontend/src/services/mockApi.js:135-147 | emptying slot id removes exactly the handler with that id from the live ones |
| MockApi.EjectThenForEach | frontend/src/services/mockApi.js:135-147 | after eject(id), forEach visits every handler except that one, in order |
| MockApi.EjectIdempotent | frontend/src/services/mockApi.js:135-139 | ejecting twice is ejecting once |
| MockApi.GenerateToken | frontend/src/services/mockApi.js:42-44 | the token is the prefix, then the user id, a dash and the decimal time, at those exact positions |
| MockApi.PrefixFields | frontend/src/services/mockApi.js:93 | splitting a prefixed token on dashes gives "mock", "jwt", "token" and then the rest's fields |
| MockApi.TokenUserId | frontend/src/services/mockApi.js:93 | the user id read from a prefixed token is the fourth dash-separated field |
| MockApi.NoDashInDigits | frontend/src/services/mockApi.js:43 | a rendered timestamp contains no dash |
| MockApi.TokenRoundTrip | frontend/src/services/mockApi.js:42-44 | the id inside a generated token is read back whenever it contains no dash |
| MockApi.Safe | frontend/src/services/mockApi.js:56 | the returned view keeps the user's id, email and role and has no password field |
| MockApi.Login | frontend/src/services/mockApi.js:48-75 | login succeeds exactly when some user matches both email and password, returns the first such user without the password, and a token for that user |
| MockApi.Me | frontend/src/services/mockApi.js:77-116 | a missing or unprefixed token is unauthorized; otherwise the answer is the first user whose id is the token's fourth field, or user-not-found |
| MockApi.LoginThenMe | frontend/src/services/mockApi.js:48-116 | the token returned by a successful login makes me return that same user |
| MockApi.MockUsersWellFormed | frontend/src/services/mockApi.js:5-36 | the mock user table has distinct ids, none containing a dash |
| MockApi.MockUsersRoundTrip | frontend/src/services/mockApi.js:5-44 | for every mock user, me on a fresh token returns that user |
| DateUtils.UnitIndex | frontend/src/utils/dateUtils.js:55-62 | each unit has its position in the year-to-minute order |
| DateUtils.UnitsDescending | frontend/src/utils/dateUtils.js:55-62 | one unit is longer than another exactly when it comes earlier in the year-to-minute order |
| DateUtils.TimeAgo | frontend/src/utils/dateUtils.js:46-74 | no start gives N/A. Fewer than 60 seconds, negatives included, gives just-now. Otherwise the count is the floor quotient for the largest unit with a quotient of at least one |
| DateUtils.Render | frontend/src/utils/dateUtils.js:69-73 | a count of exactly one gives the singular unit; any other count gives the plural |
| AdminDashboard.JsRem | frontend/src/pages/admin/AdminDashboardPage.js:155 | the remainder takes the dividend's sign and is smaller in size than the divisor |
| AdminDashboard.FormatTimeAgo | frontend/src/pages/admin/AdminDashboardPage.js:150-163 | a difference of at least a day gives whole days; otherwise hours of the difference modulo a day, which can be zero or negative |
| AdminDashboard.Render | frontend/src/pages/admin/AdminDashboardPage.js:158-160 | the plural s appears exactly when the count is above one, so zero reads "0 hour ago" |
| AdminDashboard.Counts | frontend/src/pages/admin/AdminDashboardPage.js:260 | the item counts, one per pending item, in order |
| AdminDashboard.ReduceCountsIsSum | frontend/src/pages/admin/AdminDashboardPage.js:260 | the reduce from a starting value equals that value plus the sum of the counts |
| AdminDashboard.PendingTotal | frontend/src/pages/admin/AdminDashboardPage.js:260 | the pending total is the sum of the item counts |
| AdminDashboard.PendingTotalAppend | frontend/src/pages/admin/AdminDashboardPage.js:260 | the total of two lists of items is the sum of their totals |
| AddTrainingModal.Validate | frontend/src/components/admin/AddTrainingModal.js:97-105 | a field gets an error exactly when it is required and empty; location is required exactly when the type is not Virtual |
| AddTrainingModal.ParseValue | frontend/src/components/admin/AddTrainingModal.js:121 | a numeric seat count is read back as itself; an undefined or boolean value gives no number; decimal text is read as parseInt reads it (see Strings.ParseInt) |
| AddTrainingModal.OrElse | frontend/src/components/admin/AddTrainingModal.js:119-120 | a truthy kept value wins over the default |
| AddTrainingModal.Submit | frontend/src/components/admin/AddTrainingModal.js:95-125 | any validation error emits nothing. Editing keeps the id, and keeps status and attendees when they are set. New sessions get an id in 200..1199, status scheduled and no attendees. The virtual flag, mandatory flag and facilitator follow from the form |
| AddTrainingModal.InitialFormRefused | frontend/src/components/admin/AddTrainingModal.js:34-49 | submitting the untouched initial form is refused, with an error on every required field |
| AddTrainingModal.Change | frontend/src/components/admin/AddTrainingModal.js:64-78 | a change writes that field and clears only that field's error |
| AddTrainingModal.FillingAFieldFixesIt | frontend/src/components/admin/AddTrainingModal.js:71-76 | after a change, that field shows no error and every other field's error is as before |
| TrainingManagementPage.Stage | frontend/src/pages/admin/TrainingManagementPage.js:175-248 | each filter stage keeps a subsequence holding exactly the sessions that pass it |
| TrainingManagementPage.ApplyFilters | frontend/src/pages/admin/TrainingManagementPage.js:175-248 | the filtered list is a subsequence of the sessions and holds exactly those passing the past, search, status, type and date tests |
| TrainingManagementPage.RefreshAsWritten | frontend/src/pages/admin/TrainingManagementPage.js:172-249 | the effect as written: an empty session list leaves the filtered list untouched |
| TrainingManagementPage.Refresh | frontend/src/pages/admin/TrainingManagementPage.js:172-249 | the filtered list is always recomputed from the sessions, so it is always a subsequence of them |
| TrainingManagementPage.ClearFilters | frontend/src/pages/admin/TrainingManagementPage.js:272-279 | clearing resets the search and all three filters and keeps the past toggle |
| TrainingManagementPage.ClearedShowsAllButPast | frontend/src/pages/admin/TrainingManagementPage.js:178-184 | with filters cleared a session is shown exactly when it passes the past test |
| TrainingManagementPage.Delete | frontend/src/pages/admin/TrainingManagementPage.js:288-298 | exactly the sessions with the deleted id are removed, the others keep their order |
| TrainingManagementPage.ReplaceById | frontend/src/pages/admin/TrainingManagementPage.js:339-344 | every session with the same id is replaced and the others are unchanged, in place |
| TrainingManagementPage.TrainingChange | frontend/src/pages/admin/TrainingManagementPage.js:336-369 | editing replaces by id and leaves the count unchanged; adding prepends the new session |
| TrainingManagementPage.StaleAfterDeletingLast | frontend/src/pages/admin/TrainingManagementPage.js:173 | deleting the only session leaves the as-written filtered list still showing it |
| TrainingManagementPage.EmptyAfterDeletingLast | frontend/src/pages/admin/TrainingManagementPage.js:173 | with the corrected effect, deleting the only session leaves the filtered list empty |
| TrainingListPage.ApplyFilters | frontend/src/pages/user/TrainingListPage.js:68-95 | a subsequence of the input holding exactly the items that pass search, status and type |
| TrainingListPage.DateFilterIgnored | frontend/src/pages/user/TrainingListPage.js:82-92 | the date filter has no effect on the result |
| TrainingListPage.MaxId | frontend/src/pages/user/TrainingListPage.js:292-295 | the maximum is at least the start value and every id, and it is either the start value or one of the ids |
| TrainingListPage.NextId | frontend/src/pages/user/TrainingListPage.js:292-295 | the new id is the highest existing id plus one, or 1 when no id is positive: greater than every existing id, so it differs from all of them |
| TrainingListPage.AddTraining | frontend/src/pages/user/TrainingListPage.js:290-307 | the new item is prepended with a fresh id, all seats available and status upcoming |
| TrainingListPage.StatusVariant | frontend/src/pages/user/TrainingListPage.js:316-335 | the seven known statuses map case-insensitively to themselves; anything else maps to inactive |
| TrainingListPage.StatusVariantIdempotent | frontend/src/pages/user/TrainingListPage.js:316-335 | a badge variant maps to itself |
| UserManagementPage.FilteredUsers | frontend/src/pages/admin/UserManagementPage.js:242-251 | a subsequence holding exactly the users whose "first last" or email contains the lower-cased term and whose role passes |
| UserManagementPage.NoFilterListsAll | frontend/src/pages/admin/UserManagementPage.js:242-251 | an empty term and role "all" list every user |
| UserManagementPage.SelectRow | frontend/src/pages/admin/UserManagementPage.js:188-194 | selecting a row toggles its index's membership and leaves the other indices alone |
| UserManagementPage.SelectRowTwice | frontend/src/pages/admin/UserManagementPage.js:188-194 | toggling twice restores the selected set |
| UserManagementPage.SelectUnselectedTwice | frontend/src/pages/admin/UserManagementPage.js:188-194 | toggling an unselected index on and off restores the exact selection list |
| UserManagementPage.SelectAll | frontend/src/pages/admin/UserManagementPage.js:197-204 | select-all gives exactly the indices 0..n-1 of the filtered list, deselect gives none |
| UserManagementPage.DeleteUser | frontend/src/pages/admin/UserManagementPage.js:213-217 | exactly the users with that id are removed, the others keep their order |
| MyAttendancePage.FilteredRecords | frontend/src/pages/user/MyAttendancePage.js:171-182 | a subsequence matching the title search; tab 0 applies the status dropdown ("all" keeps everything); tabs 1-3 keep only completed, upcoming or missed |
| MyAttendancePage.TabsIgnoreDropdown | frontend/src/pages/user/MyAttendancePage.js:177-179 | on tabs 1-3 the dropdown has no effect |
| MyAttendancePage.StatusCount | frontend/src/pages/user/MyAttendancePage.js:252-273 | the count is the number of records with that status, so at most the number of records |
| MyAttendancePage.TabsAgreeWithCards | frontend/src/pages/user/MyAttendancePage.js:252-273 | with an empty search, the completed and upcoming tabs list as many records as the cards count |
| MyAttendancePage.StatusVariant | frontend/src/pages/user/MyAttendancePage.js:197-216 | known statuses map to themselves, anything else to inactive |
| Strings.ParseInt | frontend/src/components/admin/AddTrainingModal.js:121 | parseInt yields a number only when the text holds a digit |
| Strings.ParseUnsigned | frontend/src/components/admin/AddTrainingModal.js:121 | after the sign, a number comes out exactly when the text starts with a digit |
| Strings.ParseDigits | frontend/src/components/admin/AddTrainingModal.js:121 | a run of decimal digits parses to its value |
| Strings.ParseNegatedDigits | frontend/src/components/admin/AddTrainingModal.js:121 | a minus sign followed by digits parses to the negated value |
| Strings.ParseIntRoundTrip | frontend/src/components/admin/AddTrainingModal.js:121 | parsing a rendered integer gives it back |
| Strings.Split | frontend/src/services/mockApi.js:93 | split on a separator gives at least one field, and no field contains the separator |
| Strings.Lower | frontend/src/pages/user/TrainingListPage.js:72-79 | lower-casing keeps the length and maps every character to its lower-case form |

## Left out

- Rendering, styling and layout: all JSX, Chakra components and the theme.
- The database: Sequelize queries become functions over in-memory sequences. A UUIDv4 id becomes a store counter, and the store never reuses one.
- Concurrency: there is no locking around the capacity check and the insert, and the model runs operations one at a time.
- The mail transport and the HTML template bodies: a send is a parameter saying delivered or not; only the template name and the data fields are kept.
- `jwt.verify` is a parameter returning a user id or nothing. Its error names are not told apart, because every failure ends as unauthorized anyway. Other error names are left to the error handler.
- `auth.controller.js`, bcrypt and the Yup validation schemas are not part of this model.
- Locale date formatting (`toLocaleDateString`, `toLocaleTimeString`) is not modelled: dates are carried as timestamps. Floating point is not modelled either.
- Parsing date strings with `new Date(...)` is not modelled: dates are already integers. The calendar month the training page adds for "this month" is the `nextMonth` field of its clock parameter.
- Daylight-saving and time-zone effects are not modelled: "today" is a clock parameter.
- `Math.random` in the add-training modal is the `draw` parameter (0..999). The base-36 random id of the training page is the `newId` parameter.
- `ILIKE` and `includes` use ASCII case folding only; the `%` and `_` wildcards of `ILIKE` are treated as literal characters.
- TrainingController.UpdateTraining: an explicit `null` in the request body is treated like a field left out, so the stored value is kept. In the source `update` writes the null: it clears a nullable column such as `capacity` (making the session unlimited) or `location`, fails the NOT NULL check for `title` or a date, and leaves `status`, `isVirtual` or `isMandatory` null. The record type has no null for those three.
- TrainingController.Patched: for the same reason, an explicit `null` keeps the stored value instead of clearing the column.
- TrainingController.CreateTraining: an explicit `null` is read as a field left out. For a nullable column both give null. For `isVirtual` or `isMandatory` the source would store null rather than the default false.
- Strings.ParseInt: only spaces count as leading whitespace, not tabs or other Unicode white space. A `0x` or `0X` prefix, which `parseInt` without a radix reads as hexadecimal, is not modelled: the model reads `0x1A` as 0 where JavaScript gives 26. The seat count comes from a numeric input field, which does not accept the letter x.
- The `having: literal(...)` clause of the declaration sweep refers to an identifier that is never imported. The model gives the intended "no declaration" selection instead.
- The QR-code stub, the route files, `getUserAttendances` and `getTrainingAttendances` (plain queries) and `getTrainingById` are not modelled.
- The mock API's artificial delays, `localStorage` and the `AuthContext` state are not modelled. `ProtectedRoute` takes the current user as an option.
- The conversion from the modal's output to the training page's record shape is not modelled; the page works on its own record type.
- The two sweeps are pure functions from the store to a list of messages, so "never modifies the store" holds by construction and is not stated as a separate lemma.
- TrainingController.EveryMatchOnItsPage: sessions with equal start dates stay in store order, and both sweeps read their records in store order. The listing sorts by `startDate` only, and the sweep queries set no order at all, so the database may order ties differently on each request. With ties, a session can then show up on two pages or on none, and Dispatch may mail different recipients before the first failing send. The lemma and Dispatch's contract hold for the order the model fixes; they say nothing about those other orders.
- AttendanceController.MarkManually: a request body without `status` is not modelled. The status column has no `allowNull: false`, so the source assigns `undefined` and saves; the model takes the status as a string, refuses anything outside the enum, and its record type always carries a status.
- Notifications.TemplateNamed: template names are the three constants the service itself passes. A name inherited from `Object.prototype` (`constructor`, `toString`, ...) would select an inherited function in the source instead of the generic body; that case is not modelled.
- AttendanceController.Register: the time-of-day of a registration is not stored, and the confirmation message carries timestamps instead of formatted dates.

## Findings

| source | as written | input that shows it | evidently intended | confidence | as-written member | corrected member |
|---|---|---|---|---|---|---|
| frontend/src/pages/admin/TrainingManagementPage.js:173 | the filter effect returns at once when the session list is empty, so the filtered list keeps its previous contents | one session shown; delete it; the sessions become empty but the filtered list still shows the deleted session | recompute the filtered list on every change, so an empty session list shows nothing | not executed | TrainingManagementPage.StaleAfterDeletingLast | TrainingManagementPage.EmptyAfterDeletingLast |

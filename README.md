# Smarty Dash, modelled in Dafny

Smarty Dash is a task dashboard. It has two halves:

- An Express/MongoDB server (`src/Connection/Server.js`). The server does two jobs:
  - It runs a sign-up and sign-in flow built on one-time codes (OTPs) sent by email.
  - It keeps one row of tasks per user. A background sweep deletes tasks that were marked done and whose expiry time has passed.
- A React front end, made of four parts:
  - the named task lists (`List.jsx`);
  - the panel of one list, with its add/edit/delete flow and countdown timers (`ListContainer.jsx`);
  - a calendar that files tasks under day keys (`Calender.jsx`);
  - the root component's list of assigned tasks (`App.js`).

The project models each of these in its own module:

| module | file | models |
|---|---|---|
| `Common` | common.dfy | Shared sequence helpers, used by every module: `filter`, `findIndex`, `splice(i, 1)` and `map` over matching entries. |
| `Text` | text.dfy | The string functions the source relies on: `trim`, `toLowerCase`, `split`/`join` on one character, decimal numerals and `padStart(2, "0")`. |
| `Auth` | auth.dfy | The user and OTP collections as a class, `AuthServer`. Each request handler is a method, with the source's status codes and messages. |
| `TaskServer` | task_server.dfy | The task rows as a map from user id to tasks, in the class `TaskStore`. It covers the task routes and the minute-by-minute sweep. |
| `Lists` | lists.dfy | The list board as the class `ListBoard`. |
| `Panel` | panel.dfy | The task panel as the class `TaskPanel`, with pure updaters for each `setTasks` callback. |
| `Calendar` | calendar.dfy | The calendar page as the class `CalendarView`. |
| `AssignedTasks` | app.dfy | The three assigned-task updaters of the root component, working on JSON-like records. |

Some parts of the system become parameters of the model:

- The clock is a `now` argument, in milliseconds.
- Randomness is a `draw` argument: `Math.random()` scaled to `0 <= draw < 900000`.
- bcrypt is a hash function `hash`. The model only assumes it is injective and that its outputs start with `$2`.
- A JWT is the value `Token(subject, expiry)`.
- Email delivery is a `delivered` flag.
- The outcome of an HTTP request the UI sends is a `requestOk` flag.
- `new Date(s)` is a `parse` function.

Where the data model and the code differ, the model follows the code:

- The edit-task route also assigns `timerMs` and `assignedTo` (`src/Connection/Server.js:482-484`). Those fields are not in the task schema (`src/Connection/Server.js:137-144`). Only the text survives the save, so `TaskServer.TaskStore.EditTask` changes only the text.
- The calendar marks a task done for one hour (`src/Pages/Calender/Calender.jsx:212-215`). The server uses ten minutes. Each is modelled with its own constant.

## Model

| member | source | states |
|---|---|---|
| `Auth.PreSave` | src/Connection/Server.js:114-124 | A password that already looks hashed (`$2…`) is stored unchanged. Otherwise the stored value is a hash. |
| `Auth.GenerateOtp` | src/Connection/Server.js:187-189 | The code is six decimal digits and its value is 100000 plus the random draw. So every code lies in 100000..999999. |
| `Auth.FindUserByEmail` | src/Connection/Server.js:683 | `User.findOne({ email })` finds a user with that email, or reports that none exists. |
| `Auth.FindIdentity` | src/Connection/Server.js:514 | The `$or` lookup finds a user whose email or username matches, or none matches either. |
| `Auth.ClashReply` | src/Connection/Server.js:515-519 | Always 400. The message names the email exactly when the clashing user has that email; otherwise it names the username. |
| `Auth.SessionFor` | src/Connection/Server.js:635-641 | The signed-in reply carries the user's name and email, and a token for that user that expires 24 hours (`expiresIn: '24h'`) after it is issued. |
| `Auth.Login` | src/Connection/Server.js:678-700 | A success implies a verified user with that email exists, and a token for that email that lives 24 hours. Every failure is a 400. |
| `Auth.FindCode` | src/Connection/Server.js:579 | `OTP.findOne({ email, otp })` finds a record with both fields, or none has both. |
| `Auth.FindOtpByEmail` | src/Connection/Server.js:654 | `OTP.findOne({ email })` finds a record for the email, or none exists. |
| `Auth.DeleteByEmail` | src/Connection/Server.js:526 | `deleteMany({ email })` keeps exactly the records of other emails. It keeps the "at most one pending code per email" invariant. |
| `Auth.IssueLeavesSingleRecord` | src/Connection/Server.js:526-536 | After delete-then-create, the new record is the only one for its email. The invariant holds, and other emails keep their records. |
| `Auth.ConsumedCodeIsGone` | src/Connection/Server.js:633 | After the matched record is deleted, its email has no pending record, so the code cannot be used again. |
| `Auth.RemoveKeepsInvariant` | src/Connection/Server.js:607-633 | Deleting any one record keeps one-per-email and the six-digit form of every code. |
| `Auth.ReissueKeepsPayload` | src/Connection/Server.js:654-662 | A resend replaces only the code and expiry of the existing record. Username, password and email stay, and no record is added. |
| `Auth.LoginFailureIsUniform` | src/Connection/Server.js:683-688 | An unknown email and a wrong password for a verified user get the same reply, `400 Invalid email or password`. |
| `Auth.LoginSucceedsIff` | src/Connection/Server.js:681-699 | Login succeeds exactly when both fields are set and a verified user with that email exists whose stored password matches. |
| `Auth.RegisterThenLogin` | src/Connection/Server.js:546-555 | A user created by the direct path can then log in with its password. A different password fails. |
| `Auth.AuthServer.IssueCode` | src/Connection/Server.js:521-536 | Replaces every pending record of the email by one new record. The record carries a fresh code and a 10-minute expiry. |
| `Auth.AuthServer.DeleteOtp` | src/Connection/Server.js:633 | Removes exactly the matched record and keeps the invariants. |
| `Auth.AuthServer.Register` | src/Connection/Server.js:508-561 | Missing fields give 400. A clash gives its 400 without side effects. `request_otp` issues a code, and a delivery failure gives 500. Otherwise a verified user is created with status 201. |
| `Auth.AuthServer.VerifyOtp` | src/Connection/Server.js:564-646 | Each branch has its status and message: missing fields, no matching code, expired, a clash at verification time, success with 201. Afterwards the email holds no pending code. |
| `Auth.AuthServer.ResendOtp` | src/Connection/Server.js:649-675 | Missing email and unknown email each give 400 with no change. Otherwise the code and expiry are renewed in place, and the reply follows delivery. |
| `Auth.AuthServer.LoginOtp` | src/Connection/Server.js:704-738 | Missing email gives 400 and an unknown user gives 404, both without change. Otherwise a single fresh login code is issued. |
| `Auth.AuthServer.VerifyLoginOtp` | src/Connection/Server.js:741-780 | Missing fields, no match, expired, unknown user and success each get their reply. The matched code is always consumed. |
| `Auth.AuthServer.ForgotPassword` | src/Connection/Server.js:784-817 | Missing email gives 400 and an unknown user gives 404, both without change. Otherwise a single reset code is issued. |
| `Auth.AuthServer.ResetPassword` | src/Connection/Server.js:820-881 | Missing fields, no match, expired and unknown user each give their error. On success only that user's password changes, to what the pre-save hook stores for the new password. The code is always consumed. |
| `TaskServer.FindTask` | src/Connection/Server.js:447 | `tasks.find(t => t.id === id)` gives the first index with that id, or reports that no task has it. |
| `TaskServer.WithoutId` | src/Connection/Server.js:391 | Keeps exactly the tasks with another id, so none with that id remains. Distinct ids stay distinct. |
| `TaskServer.WithoutIdKeepsOrder` | src/Connection/Server.js:391 | Removal acts task by task, so the tasks that stay keep their relative order. |
| `TaskServer.ExpiredStaysExpired` | src/Connection/Server.js:283 | The sweep's condition, a done task with expiry at or before now, still holds at every later instant. `SweepRow` drops exactly the tasks that meet it. |
| `TaskServer.SweepRow` | src/Connection/Server.js:280-290 | Keeps exactly the tasks that are not both done and past their expiry. Ids stay distinct. |
| `TaskServer.SweepKeepsOrder` | src/Connection/Server.js:283 | The sweep acts task by task: sweeping a concatenation is sweeping both parts. |
| `TaskServer.SweepIdempotent` | src/Connection/Server.js:283 | A second sweep at the same instant removes nothing more. A row with nothing expired is unchanged. |
| `TaskServer.Toggle` | src/Connection/Server.js:450-457 | Flips `done`. A done task has an expiry 10 minutes after the toggle, an open one has none. Nothing else changes. |
| `TaskServer.ToggleThenSweep` | src/Connection/Server.js:280-290 | A task toggled to done is swept exactly from 10 minutes after the toggle. A task toggled back to open is never swept. |
| `TaskServer.ToggleTwice` | src/Connection/Server.js:450-457 | Toggling an open task twice gives the original task back. |
| `TaskServer.MonthTasks` | src/Connection/Server.js:314-322 | Keeps exactly the tasks whose date starts with the given year and month. |
| `TaskServer.TodayTasks` | src/Connection/Server.js:325-326 | Keeps exactly the tasks assigned today. |
| `TaskServer.InMonthCanonical` | src/Connection/Server.js:320-321 | For a date `y-m-d` written in digits, the month filter keeps it exactly when `y` and `m` are the current year and month. |
| `TaskServer.TaskStore.FetchTasks` | src/Connection/Server.js:299-332 | Prunes the user's row, created empty if missing, to the current month, and returns today's tasks from it. |
| `TaskServer.TaskStore.AddTask` | src/Connection/Server.js:335-364 | A payload missing a field gives 400 without change. Otherwise the task is appended to the row, created if missing. |
| `TaskServer.TaskStore.DeleteTask` | src/Connection/Server.js:384-399 | An unknown user gives 404. Otherwise every task with the id is removed and the remaining list is returned. |
| `TaskServer.TaskStore.ToggleDone` | src/Connection/Server.js:441-465 | Unknown user and unknown task each give 404. Otherwise the first task with the id is toggled as `Toggle` says. |
| `TaskServer.TaskStore.EditTask` | src/Connection/Server.js:467-491 | Empty text gives 400 first, then the two 404s. Otherwise only the text of the first matching task changes. |
| `TaskServer.TaskStore.Sweep` | src/Connection/Server.js:280-290 | Every row is swept and no row is added or removed. |
| `Lists.FindList` | src/Dashboard/CretaeList/List.jsx:112-113 | `findIndex` by exact name: the first list with that name, or none. |
| `Lists.AddIfAbsent` | src/Dashboard/CretaeList/List.jsx:124-128 | After the step the target holds a task with the moved id. A target that already had the id is unchanged. Otherwise the task is appended at the end. Unique ids stay unique. |
| `Lists.MoveTask` | src/Dashboard/CretaeList/List.jsx:110-133 | Between two known lists, the source keeps exactly its tasks with another id, in order (when the two differ). The target becomes `AddIfAbsent` of its old tasks, taken after that removal when source and target are the same list. So the task is in the target once. Other lists and all names are unchanged, and ids stay unique per list. An unknown list is a no-op. |
| `Lists.MergeToday` | src/Dashboard/CretaeList/List.jsx:45-53 | The first list becomes "Today" holding exactly the fetched tasks. The other lists are kept, and a "Today" list is prepended when missing. |
| `Lists.CreateKeepsNamesDistinct` | src/Dashboard/CretaeList/List.jsx:77-81 | Appending a list whose name no list already holds, ignoring case, keeps all names distinct. |
| `Lists.RenameKeepsNamesDistinct` | src/Dashboard/CretaeList/List.jsx:90-95 | Renaming to a name no other list holds keeps names distinct. |
| `Lists.DeleteKeepsNamesDistinct` | src/Dashboard/CretaeList/List.jsx:103-107 | Deleting a list keeps names distinct. |
| `Lists.ListBoard.CreateList` | src/Dashboard/CretaeList/List.jsx:73-84 | An empty trimmed name and a taken name each set their error and change nothing else. Otherwise the list is appended and the form reset. Names stay distinct. |
| `Lists.ListBoard.RenameList` | src/Dashboard/CretaeList/List.jsx:86-101 | The same two errors, where the list's own current name does not count as taken. Otherwise only that list's name changes and rename mode ends. |
| `Lists.ListBoard.DeleteList` | src/Dashboard/CretaeList/List.jsx:103-107 | `splice(index, 1)` with its handling of negative and out-of-range indexes. Names stay distinct. |
| `Lists.ListBoard.TaskMove` | src/Dashboard/CretaeList/List.jsx:110-133 | The in-place steps on the copied array give exactly `MoveTask`. |
| `Lists.ListBoard.FetchToday` | src/Dashboard/CretaeList/List.jsx:45-53 | The lists become `MergeToday` of the fetched tasks. |
| `Panel.Max0` | src/Dashboard/ListContainer/ListContainer.jsx:87 | `Math.max(0, x)` is the least non-negative number at least `x`. |
| `Panel.StartedAt` | src/Dashboard/ListContainer/ListContainer.jsx:260 | A start time is used exactly when it is set and truthy (not 0). |
| `Panel.DisplayMs` | src/Dashboard/ListContainer/ListContainer.jsx:311-316 | A running timer shows its stored value less the time since it started, clamped at 0. That value is never negative and, once the start lies in the past, never above the stored value. A stopped timer shows its stored value. |
| `Panel.FormatTime` | src/Dashboard/ListContainer/ListContainer.jsx:302-309 | The result has the form `mm:ss`, with at least two minute digits. |
| `Panel.PaddedDecimal` | src/Dashboard/ListContainer/ListContainer.jsx:304-307 | A zero-padded numeral still denotes its number, and is two characters long below 100. |
| `Panel.FormatTimeReadsBack` | src/Dashboard/ListContainer/ListContainer.jsx:302-309 | The clock face splits on `:` into minutes and seconds. Seconds are below 60, and the two fields together give the whole seconds of `max(0, ms)`. |
| `Panel.ToggleTimerOne` | src/Dashboard/ListContainer/ListContainer.jsx:250-277 | A running timer stops. A stopped one with time left starts now. A stopped one with no time is unchanged. Only timer fields change, and timers stay non-negative. |
| `Panel.TickOne` | src/Dashboard/ListContainer/ListContainer.jsx:280-300 | A running task stays running exactly while time remains. When time runs out it is stopped at 0, and nothing else changes. |
| `Panel.TimerKeepsDisplay` | src/Dashboard/ListContainer/ListContainer.jsx:250-300 | Pausing, starting and ticking do not change the time shown at that instant. |
| `Panel.FindPanelTask` | src/Dashboard/ListContainer/ListContainer.jsx:133 | `tasks.find` by id: the first index, or none. |
| `Panel.ToggleTimerIn` | src/Dashboard/ListContainer/ListContainer.jsx:250-277 | Only tasks with that id are toggled. |
| `Panel.TickAll` | src/Dashboard/ListContainer/ListContainer.jsx:280-300 | Every task is ticked. |
| `Panel.FlipDoneIn` | src/Dashboard/ListContainer/ListContainer.jsx:235 | Only tasks with that id flip `done`. |
| `Panel.SetConfirm` | src/Dashboard/ListContainer/ListContainer.jsx:204-229 | Only tasks with that id change, and only their `confirmDelete`. |
| `Panel.ApplyEdit` | src/Dashboard/ListContainer/ListContainer.jsx:147-176 | Only tasks with that id change, and only their text, timer and assignee. |
| `Panel.WithoutTask` | src/Dashboard/ListContainer/ListContainer.jsx:227 | Keeps exactly the tasks with another id. |
| `Panel.WithoutTaskKeepsOrder` | src/Dashboard/ListContainer/ListContainer.jsx:227 | Removal acts task by task, so the tasks that stay keep their relative order. |
| `Panel.DeleteStep` | src/Dashboard/ListContainer/ListContainer.jsx:204-229 | An unknown id changes nothing. A first press on an unarmed task keeps every task and id in place and arms exactly the tasks with that id. A press on an armed task keeps exactly the tasks with another id. `DeleteTakesTwoPresses` chains the two presses. |
| `Panel.RollbackRestores` | src/Dashboard/ListContainer/ListContainer.jsx:232-247 | The rollback after a failed request undoes the optimistic flip. |
| `Panel.RemovalIgnoresConfirm` | src/Dashboard/ListContainer/ListContainer.jsx:204-229 | Arming the confirmation does not change what a later removal keeps. |
| `Panel.DeleteTakesTwoPresses` | src/Dashboard/ListContainer/ListContainer.jsx:204-229 | The first press on an unarmed task only arms it. The second press removes exactly the tasks with that id. |
| `Panel.TaskPanel.AddTask` | src/Dashboard/ListContainer/ListContainer.jsx:83-122 | Empty text changes nothing. Otherwise one new task is put first in the list. It has the trimmed text and a timer of `max(0, minutes·60000)`, and the form is reset. Timers stay non-negative. |
| `Panel.TaskPanel.StartEdit` | src/Dashboard/ListContainer/ListContainer.jsx:132-141 | For a known id, the form holds that task's text, timer and assignee. An unknown id changes nothing. |
| `Panel.TaskPanel.SaveEdit` | src/Dashboard/ListContainer/ListContainer.jsx:147-176 | With no task being edited or with empty text, nothing changes. Otherwise `ApplyEdit` with the trimmed text, and edit mode ends. |
| `Panel.TaskPanel.CancelEdit` | src/Dashboard/ListContainer/ListContainer.jsx:178-181 | Leaves edit mode and clears the draft. |
| `Panel.TaskPanel.DeleteTask` | src/Dashboard/ListContainer/ListContainer.jsx:204-229 | One press is `DeleteStep`: arm the first time, remove the second. |
| `Panel.TaskPanel.ClearConfirm` | src/Dashboard/ListContainer/ListContainer.jsx:211-213 | The timeout disarms the task. |
| `Panel.TaskPanel.MarkAsDone` | src/Dashboard/ListContainer/ListContainer.jsx:232-247 | A successful request leaves the flip. A failed one leaves the tasks as they were. |
| `Panel.TaskPanel.ToggleTimer` | src/Dashboard/ListContainer/ListContainer.jsx:250-277 | Tasks become `ToggleTimerIn`. Timers stay non-negative and every displayed time is unchanged. |
| `Panel.TaskPanel.Tick` | src/Dashboard/ListContainer/ListContainer.jsx:280-300 | Tasks become `TickAll`. Timers stay non-negative and every displayed time is unchanged. |
| `Calendar.Pad` | src/Pages/Calender/Calender.jsx:18 | The result is decimal digits denoting `n`, two characters below 100. |
| `Calendar.MakeLocalKey` | src/Pages/Calender/Calender.jsx:19 | The `${y}-${pad(m0 + 1)}-${pad(d)}` key. Its meaning is stated by `KeyReadsBack`, which splits it back into its fields, and by `KeyIsCanonical`, which says it is in the `YYYY-MM-DD` form. |
| `Calendar.KeyReadsBack` | src/Pages/Calender/Calender.jsx:19 | A day key splits on `-` into three digit fields: the year, the one-based month and the day. |
| `Calendar.KeyIsCanonical` | src/Pages/Calender/Calender.jsx:19 | For a four-digit year, a real month and a day below 100, the key matches `YYYY-MM-DD`. |
| `Calendar.DashedIsCanonical` | src/Pages/Calender/Calender.jsx:33 | Digit fields of widths 4, 2 and 2 joined by dashes pass the `/^\d{4}-\d{2}-\d{2}$/` test. |
| `Calendar.NormalizeDateKey` | src/Pages/Calender/Calender.jsx:31-37 | Empty and canonical keys pass through unchanged. |
| `Calendar.NormalizeIdempotent` | src/Pages/Calender/Calender.jsx:31-37 | Normalizing twice is normalizing once. |
| `Calendar.Dates` | src/Pages/Calender/Calender.jsx:22-29 | One cell for each day from today to the end of the month, each holding its key. |
| `Calendar.TwoDigitOrder` | src/Pages/Calender/Calender.jsx:18 | Two-digit numerals compare as strings the way their values compare. |
| `Calendar.DatesIncreasing` | src/Pages/Calender/Calender.jsx:22-29 | The day keys are strictly increasing as strings. |
| `Calendar.Grouped` | src/Pages/Calender/Calender.jsx:51-56 | Every day present holds at least one task, and each of its tasks carries that day as its date. `GroupedIsOnDay` and `GroupedCount` pin down its contents. |
| `Calendar.OnDay` | src/Pages/Calender/Calender.jsx:51-56 | The reference definition: the tasks a day function files under one day, in input order. None is longer than the input, and each carries that day as its date. |
| `Calendar.GroupedIsOnDay` | src/Pages/Calender/Calender.jsx:51-56 | Each day of the grouping holds exactly the tasks filed under it, in input order. A day is present exactly when it holds some task. |
| `Calendar.GroupedCount` | src/Pages/Calender/Calender.jsx:51-56 | The days together hold exactly as many tasks as were fetched: none lost, none duplicated. |
| `Calendar.ToggleVisible` | src/Pages/Calender/Calender.jsx:208-217 | Flips `done`. A done task expires an hour later, an open one has no expiry. |
| `Calendar.ToggleDay` | src/Pages/Calender/Calender.jsx:210-217 | Only tasks with that id toggle. |
| `Calendar.ToggleThenExpire` | src/Pages/Calender/Calender.jsx:70-80 | A task marked done is filtered exactly from one hour later. |
| `Calendar.TargetDate` | src/Pages/Calender/Calender.jsx:129 | `activeDate \|\| fromDate`: the first non-empty of the two, or none. |
| `Calendar.CalendarView.LoadTasks` | src/Pages/Calender/Calender.jsx:46-64 | After a successful fetch, the days are exactly the grouping of the fetched tasks. A failed fetch changes nothing. |
| `Calendar.CalendarView.ExpireTick` | src/Pages/Calender/Calender.jsx:67-84 | Every day keeps its key and loses exactly its expired done tasks. Ids stay unique per day. |
| `Calendar.CalendarView.HandleMiddleDrop` | src/Pages/Calender/Calender.jsx:112-158 | A dropped day becomes active. A dropped task is filed once under the target day, or the drop is ignored when there is no target. Ids stay unique per day. |
| `Calendar.CalendarView.HandleDeleteTask` | src/Pages/Calender/Calender.jsx:196-206 | Only after a successful request, the day loses the tasks with that id. |
| `Calendar.CalendarView.HandleToggleDone` | src/Pages/Calender/Calender.jsx:208-227 | The day's tasks become `ToggleDay`. Ids stay unique per day. |
| `AssignedTasks.AddAssigned` | src/App.js:46-52 | A missing task, a falsy id or an id already present leaves the list unchanged. Otherwise the task is appended with its `originalDate`. Ids stay distinct. |
| `AssignedTasks.RemoveAssigned` | src/App.js:54-56 | Keeps exactly the entries with another id. Ids stay distinct. Removing an id no entry has changes nothing. |
| `AssignedTasks.RemoveKeepsOrder` | src/App.js:54-56 | Removal acts entry by entry and keeps order. |
| `AssignedTasks.AddThenRemove` | src/App.js:46-56 | Adding a new task and then removing its id gives the list back. |
| `AssignedTasks.UpdateAssigned` | src/App.js:58-61 | Entries with the update's id take the update's fields, and no id changes. Ids stay distinct. A missing update or a falsy id changes nothing. |
| `Text.Trim` | src/Dashboard/CretaeList/List.jsx:74 | The result is the part of the input between its leading and its trailing white space. It neither starts nor ends with white space. |
| `Text.TrimIdempotent` | src/Dashboard/CretaeList/List.jsx:74 | Trimming twice is trimming once. |
| `Text.ToLower` | src/Dashboard/CretaeList/List.jsx:77 | `toLowerCase` maps every character on its own and keeps the length. |
| `Text.Split` | src/Connection/Server.js:320 | `split('-')` gives at least one piece, and no piece holds the separator. `JoinSplit` shows it loses nothing. |
| `Text.Join` | src/Pages/Calender/Calender.jsx:19 | Joining with a separator starts with the first piece, followed by the separator when there are more. `SplitJoin` shows `Split` undoes it. |
| `Text.JoinSplit` | src/Connection/Server.js:320 | Joining the pieces of a split gives the string back. |
| `Text.SplitJoin` | src/Connection/Server.js:320 | Splitting a join of pieces that do not contain the separator gives the pieces back. |
| `Text.DecimalRoundTrip` | src/Dashboard/ListContainer/ListContainer.jsx:304-307 | `n.toString()` read back as a number is `n`. |
| `Common.SpliceOne` | src/Dashboard/CretaeList/List.jsx:105 | `splice(i, 1)`: a negative index counts from the end, and an index past the end removes nothing. Otherwise exactly one entry is removed and the rest shift down. |

## Left out

- Input validators, CORS, JSON parsing, logging, error middleware and the 500 replies for database exceptions are not modelled: they are framework plumbing with no logic of the core.
- bcrypt, JWT signing and nodemailer are abstract: a hash function, a token value and a delivery flag.
- The lookups retry with the code read as a number: verify-otp at `src/Connection/Server.js:581-592`, verify-login-otp at `src/Connection/Server.js:750-753` and reset-password at `src/Connection/Server.js:838-841`. In verify-login-otp and reset-password that retry also accepts other spellings of the same six-digit number, such as `0123456`. In verify-otp a retry hit assigns to the `const otpRecord` (`src/Connection/Server.js:579`, `590`). That throws, so the request ends in the error middleware and the record is kept; the model replies "Invalid OTP" there, also keeping the record. The model compares the trimmed string only, because JavaScript number parsing is not modelled.
- The `expiresAt instanceof Date` check is not modelled: expiry is always a number here, so the "Invalid OTP record" branch cannot arise.
- The MongoDB TTL index on OTPs (`src/Connection/Server.js:178`) is not modelled: the model checks expiry only inside the handlers.
- The second delete-task route (`src/Connection/Server.js:422-438`) is not modelled: Express never reaches it because the first route with the same path answers.
- The update-task and get-tasks routes, the projects, feedback, profile and health routes, and the authentication middleware are outside the modelled core.
- Row metadata (`assigndate`, `rowAssignTime` of a task row) is not modelled: nothing reads it.
- Persistence to `localStorage` is not modelled, nor is the `initialTasks` re-sync of the panel or its drag-and-drop glue: they move data without logic.
- `Panel.TaskPanel.ClearConfirm` stands for the five-second `setTimeout`: the timeout is an explicit event.
- The panel's add, edit and delete requests run fire-and-forget (their failure is logged and ignored). The model leaves the server call out and keeps the local update.
- `updateEditDraft` is not modelled: it only copies a form field.
- The calendar's `handleAddTask` and `handleLeftDrop` are not modelled: they build requests for the server routes modelled above, or fill the assigned list through `AssignedTasks.AddAssigned`.
- Unicode case folding is reduced to ASCII letters in `Text.ToLower`.
- `NaN` and fractional minutes are not modelled: numbers are integers.
- Aliasing between React state snapshots and concurrent requests are not modelled: each handler runs to completion on the current state.
- `Panel.DisplayMs`: stated non-negative only for a running timer, because an edited timer can be stored negative (the edit field's `min=0` is not enforced).
- `Panel.TaskPanel.SaveEdit`: keeps non-negative timers only when the draft's timer is non-negative, for the same reason.
- `Calendar.NormalizeDateKey`: the branch through `new Date(s)` is stated only through the `parse` parameter, because date parsing is host-specific.
- `Lists.ListBoard.RenameList`: requires a valid `renameIndex`, because the source reads `lists[renameIndex]` and would throw otherwise.
- Database ids (`_id`) are not modelled: a user is identified by email, and a token's subject is that email.
- Email addresses are compared as given: the schema's lower-casing of emails is not modelled.

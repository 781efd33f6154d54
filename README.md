# VetFiles core, modelled in Dafny

VetFiles is a web application for a veterinary clinic. Its screens talk to a
remote SQL database through a set of small data-access services and keep some
settings in the browser's `localStorage`. This project models the parts of it
that compute something that can be stated precisely:

- **The agenda** (`src/pages/Schedule.tsx`). It covers:
  - the days shown by the day, week and month views, over an ECMA-262 style
    calendar of day numbers and milliseconds within the day;
  - stepping the anchor date;
  - the pixel geometry of appointment blocks;
  - the `HH:MM` text of the edit form;
  - the in-place edits of the appointment list: replace by id, append and
    delete by id.

  The page is a class whose handlers update its fields.
- **The appointment-type configuration**:
  - `src/services/configService.ts` is a store with a fall-back to the
    built-in defaults. Its `JSON.stringify`/`JSON.parse` pair is modelled
    as a small JSON codec with a proved round trip.
  - `src/pages/ScheduleConfig.tsx` is the editor page over that store. It is
    a class with the unsaved-changes flag.
- **The data-access services** (appointments, hospitalizations, patients,
  users, owners):
  - One generic `UPDATE` builder filters a partial record's keys against an
    exclusion set and builds `k = ?` assignments. The owner service uses it
    without the guard for an empty record.
  - `INSERT` argument binding.
  - An abstract database: one map from row id to row per table, with the
    `CHECK` domains and `DEFAULT`s of its schema. The services' calls are
    methods that change it.
- **Small decision functions**:
  - the admission label, status badge and alert check of the in-patient board;
  - the staff directory's role filter and search;
  - the user administration page's payloads and handlers;
  - the application shell's sign-in flag, today counter and route tables;
  - the bulk loader `scripts/seed-turso.ts`, with its batches of twenty.

Dates and times are local time only. A `DateTime` is a day number counted
from 1970-01-01 plus the milliseconds within that day. Years, months and
dates follow the proleptic Gregorian calendar, and `setDate`/`setMonth`
overflow follows `MakeDay` of ECMA-262 (section 21.4.1).

The month step of the agenda's navigation is modelled as written and then
corrected; see "## Findings". The page's `HandleNavigate` uses the corrected
step.

## Model

| member | source | states |
|---|---|---|
| Schedule.StartOfWeek | src/pages/Schedule.tsx:80-81 | the week starts `getDay()` days before the anchor, at the anchor's time of day |
| Schedule.WeekDaysToShow | src/pages/Schedule.tsx:79-86 | the week branch's `setDate` steps yield exactly `WeekDays`: seven consecutive days from the Sunday on or before the anchor, each at the anchor's time of day |
| Schedule.SevenDaysFrom | src/pages/Schedule.tsx:82-86 | day `i` of the `Array.from` is `i` days after the week's start, at its time of day |
| Schedule.DaysToShow | src/pages/Schedule.tsx:77-95 | `getDaysToShow` returns exactly the visible days of the view: the anchor, the week, or the month |
| Schedule.MonthDaysToShow | src/pages/Schedule.tsx:88-94 | the month branch's loop yields the midnights from the 1st to the last day of the anchor's month |
| Schedule.MidnightsThrough | src/pages/Schedule.tsx:90-93 | the `for` loop stepping `setDate(getDate() + 1)` from the first midnight through the last pushes each day's midnight once, in order |
| Schedule.StartOfMonth | src/pages/Schedule.tsx:88 | `new Date(y, m, 1)` is midnight of the 1st of the anchor's month |
| Schedule.EndOfMonth | src/pages/Schedule.tsx:89 | `new Date(y, m + 1, 0)` is midnight of the month's last day, the 1st plus the month's length minus one |
| Schedule.MonthBounds | src/pages/Schedule.tsx:88-89 | date 0 of the next month is the last day of the month, for every month of every year outside 0..99, which the browser maps to 1900..1999 (see `Calendar.NewDate` under "## Left out") |
| Schedule.DayViewIsAnchor | src/pages/Schedule.tsx:78 | the day view shows exactly one date, the anchor |
| Schedule.WeekViewProperties | src/pages/Schedule.tsx:79-87 | seven consecutive days, the first a Sunday, the anchor among them, all at the anchor's time of day |
| Schedule.MonthViewProperties | src/pages/Schedule.tsx:88-94 | every date of the anchor's month from the 1st, ascending, as many as the month has days, all in the anchor's month and year (for anchors outside the years 0..99; see `Calendar.NewDate` under "## Left out") |
| Schedule.NavigateShiftsDays | src/pages/Schedule.tsx:100-103 | a day step moves the anchor by `direction` days and a week step by `7 * direction`, keeping the time of day |
| Schedule.NavigateRoundTrip | src/pages/Schedule.tsx:100-103 | in the day and week views a step and the opposite step return the anchor |
| Schedule.TargetMonth | src/pages/Schedule.tsx:104 | the month aimed at is `month + direction` with the year carried, a month in 0..11 |
| Schedule.NavigateMonthLandsInTarget | src/pages/Schedule.tsx:104 | `setMonth(getMonth() + direction)` keeps the date and time of day and lands in the target month exactly when that month has the anchor's date |
| Schedule.MonthStepSkipsFebruary | src/pages/Schedule.tsx:104 | as written, one step forward from January 31 lands in March, not February |
| Schedule.NavigateMonthClampedLandsInTarget | src/pages/Schedule.tsx:104 | the corrected step always lands in the target month, on the anchor's date or the month's last day if that is earlier, at the same time of day |
| Schedule.NavigateMonthClampedAgrees | src/pages/Schedule.tsx:104 | the corrected step and the step as written agree exactly when the anchor's date exists in the target month |
| Schedule.MinuteOfDay | src/pages/Schedule.tsx:202 | the minute of the day of a start is `getHours() * 60 + getMinutes()`, in 0..1439 |
| Schedule.BlockTopLinear | src/pages/Schedule.tsx:202 | `top` is 96/60 pixels per minute of the day plus a 4-pixel inset |
| Schedule.BlockTopIncreasing | src/pages/Schedule.tsx:202 | a later start within the day is drawn strictly lower |
| Schedule.BlockTopHourLater | src/pages/Schedule.tsx:202 | starting 60 minutes later moves the block down by exactly 96 pixels |
| Schedule.BlockExample | src/pages/Schedule.tsx:202 | a 09:30 start is drawn at 916 pixels and a 39-minute block is 54.4 pixels high |
| Schedule.HoursMinutesOfSetHours | src/pages/Schedule.tsx:112 | `setHours(h, m, 0, 0)` is read back by `getHours` and `getMinutes` as `h` and `m` |
| Schedule.AppointmentsOn | src/pages/Schedule.tsx:198 | a day's column holds exactly the appointments that start on that calendar day |
| Schedule.Pad2 | src/pages/Schedule.tsx:52 | `padStart(2, '0')` gives at least two digits and no colon |
| Schedule.Pad2Value | src/pages/Schedule.tsx:52 | the padded digits still read as the number |
| Schedule.TimeRoundTrip | src/pages/Schedule.tsx:52-112 | formatting hours and minutes as `HH:MM` and splitting on `:` gives them back |
| Schedule.ReplaceById | src/pages/Schedule.tsx:126 | replacing by id keeps the length and order, replaces every entry with that id and leaves the others as they were |
| Schedule.DeleteById | src/pages/Schedule.tsx:72 | deleting by id keeps, in their order, exactly the entries with another id |
| Schedule.DeleteAbsentId | src/pages/Schedule.tsx:72 | deleting an id that is not in the list changes nothing |
| Schedule.DeleteByIdAppend | src/pages/Schedule.tsx:72 | deleting from two lists joined is deleting from each part |
| Schedule.AppointmentFromForm | src/pages/Schedule.tsx:108-123 | the saved appointment keeps the edited one's id or takes the fresh id; it copies the form's pet, owner, type, doctor and assistant; for a valid form date and a time in 00:00..23:59 it starts on that date at that hour and minute, seconds zeroed; its duration comes from the page's type table (39, 20, 120, 30) |
| Schedule.EditUnchangedKeepsAppointment | src/pages/Schedule.tsx:43-54 | opening an appointment and saving the form unchanged keeps its id, text fields, type, day, hour and minute; the seconds and milliseconds of the start drop to zero and the duration is reset to the type table's (a 45-minute Consulta comes back as 39) |
| Schedule.SchedulePage.constructor | src/pages/Schedule.tsx:28-41 | the page starts in the week view at the current date, the modal closed, nothing being edited, with a blank Consulta form at 09:00 |
| Schedule.SchedulePage.SetView | src/pages/Schedule.tsx:142 | choosing a view sets it |
| Schedule.SchedulePage.HandleNavigate | src/pages/Schedule.tsx:100-106 | the anchor moves by one day, one week, or (corrected) one month clamped to the target month |
| Schedule.SchedulePage.HandleOpenModal | src/pages/Schedule.tsx:43-68 | opening fills the form from the appointment (or blanks it), records what is edited and opens the modal |
| Schedule.SchedulePage.HandleSaveAppointment | src/pages/Schedule.tsx:108-131 | an edit replaces the entry with the edited id in place; a new appointment is appended at the end; the modal closes |
| Schedule.SchedulePage.HandleDelete | src/pages/Schedule.tsx:70-75 | only an edited appointment, and only once confirmed, is removed by id, and the modal closes; otherwise nothing changes |
| Calendar.DaysInMonth | src/pages/Schedule.tsx:89 | a month has 28 to 31 days, the distance between the starts of consecutive months |
| Calendar.CivilFromDay | src/pages/Schedule.tsx:81 | every day number has a valid year, month and date that map back to it |
| Calendar.CivilRoundTrip | src/pages/Schedule.tsx:81 | a valid year, month and date maps to a day number and back to itself |
| Calendar.WeekDay | src/pages/Schedule.tsx:81 | `getDay()` is in 0..6, with 1970-01-01 a Thursday |
| Calendar.SetDateShift | src/pages/Schedule.tsx:84-103 | `setDate(getDate() + k)` moves the instant by exactly `k` days, across month and year ends |
| Calendar.SetHours | src/pages/Schedule.tsx:112 | `setHours(h, m, 0, 0)` with an hour and minute in range keeps the day and sets the time of day |
| ConfigService.DefaultTypesShape | src/services/configService.ts:10-15 | four defaults with distinct ids, each id equal to its label, lasting 30, 20, 120 and 30 minutes |
| ConfigService.TypesFromStored | src/services/configService.ts:18-27 | no stored value, an empty one or one that does not parse gives the defaults |
| ConfigService.TypesFromSaved | src/services/configService.ts:18-32 | the stored text of a list reads back as that list |
| ConfigService.ParseStringified | src/services/configService.ts:18-32 | parsing the stringified list gives the list |
| ConfigService.GetAppointmentTypes | src/services/configService.ts:18-28 | the stored list when one is there and parses, otherwise the defaults |
| ConfigService.SaveAppointmentTypes | src/services/configService.ts:30-32 | saving writes only the `vet_appointment_types` key, and what is read next is the saved list |
| Json.DecodeEncodedString | src/services/configService.ts:18-32 | a string literal written with its escapes decodes to the same string, leaving the rest unread |
| Json.DecodeEncodedInt | src/services/configService.ts:18-32 | an integer's text decodes to the same integer, leaving the rest unread |
| ScheduleConfig.UpdateDuration | src/pages/ScheduleConfig.tsx:16 | only the duration of the entries with that id changes; length, order, other fields and other entries stay |
| ScheduleConfig.UpdateDurationIdempotent | src/pages/ScheduleConfig.tsx:16 | the same change applied twice is the change applied once |
| ScheduleConfig.UpdateDurationCommutes | src/pages/ScheduleConfig.tsx:16 | changes to two different ids can be applied in either order |
| ScheduleConfig.DurationFromInput | src/pages/ScheduleConfig.tsx:106 | input that does not parse as an integer becomes 0; otherwise its integer |
| ScheduleConfig.ScheduleConfigPage.constructor | src/pages/ScheduleConfig.tsx:8-9 | the page starts with no types and no unsaved changes |
| ScheduleConfig.ScheduleConfigPage.Load | src/pages/ScheduleConfig.tsx:11-13 | on mount the types are the stored ones or the defaults |
| ScheduleConfig.ScheduleConfigPage.HandleDurationChange | src/pages/ScheduleConfig.tsx:15-18 | the change is applied, there are unsaved changes and the save button is enabled |
| ScheduleConfig.ScheduleConfigPage.HandleDurationInput | src/pages/ScheduleConfig.tsx:106 | the number input applies the parsed duration, or 0 |
| ScheduleConfig.ScheduleConfigPage.HandleSave | src/pages/ScheduleConfig.tsx:20-22 | the list is stored under its key alone, reads back as itself, and the flag drops so the save button is disabled |
| ScheduleConfig.ScheduleConfigPage.HandleReset | src/pages/ScheduleConfig.tsx:26-31 | once confirmed the key is removed, the types are the defaults and there are no unsaved changes; declined, nothing changes |
| Storage.LocalStorage.GetItem | src/services/configService.ts:19 | `getItem` returns the stored string exactly when the key is present |
| Storage.LocalStorage.SetItem | src/services/configService.ts:31 | `setItem` changes only its key |
| Storage.LocalStorage.RemoveItem | src/pages/ScheduleConfig.tsx:28 | `removeItem` removes only its key |
| UpdateBuilder.Fields | src/services/appointmentService.ts:68-70 | the kept keys are exactly the record's keys outside the exclusion set, in their order |
| UpdateBuilder.BuildUpdate | src/services/appointmentService.ts:67-79 | with the guard, no statement exactly when no key survives; a statement's SET clause never names an excluded key |
| UpdateBuilder.SetClauseKeepsKeyOrder | src/services/appointmentService.ts:73 | the SET clause lists the kept keys in record order, every one of them |
| UpdateBuilder.UpdateArgsAlign | src/services/appointmentService.ts:73-79 | the arguments are the kept values in key order, then the id, one per `?` |
| UpdateBuilder.FieldsDistinct | src/services/appointmentService.ts:68 | the kept keys of a record are distinct |
| UpdateBuilder.UpdateWritesOnlyKeptFields | src/services/appointmentService.ts:67-80 | run against a table, the update writes every kept value into row `id` and leaves every other cell and row as they were |
| UpdateBuilder.ExecuteUpdate | src/services/appointmentService.ts:71-79 | nothing is sent when the guard returns early; otherwise the statement runs against the database |
| Tables.UpdateChangesOnlyListedCells | src/services/appointmentService.ts:76-79 | an `UPDATE ... WHERE id = ?` changes only the listed cells of that row; a missing row is no change |
| Tables.DeleteRemovesOnlyRow | src/services/appointmentService.ts:82-87 | a `DELETE ... WHERE id = ?` removes that row and only that row |
| Tables.InsertOutsideDomainRejected | src/services/hospitalizationService.ts:44 | an insert giving a `CHECK (c IN (...))` column a non-null value outside its list is rejected |
| Tables.EmptyUpdateRejected | src/services/ownerService.ts:36-39 | an `UPDATE` with an empty SET clause is an error and changes nothing |
| Tables.Run | src/services/appointmentService.ts:76-79 | a statement changes only its own table, and a failed one changes nothing |
| Tables.Database.Execute | src/services/appointmentService.ts:76-79 | `turso.execute` answers and changes the tables as `Run` says |
| Sql.PlaceholdersMatchArgs | src/services/appointmentService.ts:53-86 | every statement the services send binds exactly one argument per `?` |
| Sql.ParamsInsertAligned | src/services/patientService.ts:36-46 | an insert of bound values binds them in column order, one per `?` |
| Sql.UpdateArgs | src/services/appointmentService.ts:74-78 | an update binds the assigned values in order, then the id |
| Sql.EmptySetClause | src/services/ownerService.ts:34-38 | an update without assignments renders `SET  WHERE id = ?` and binds only the id |
| AppointmentService.AssistantReadsBack | src/services/appointmentService.ts:40-59 | an absent or zero assistant is bound as NULL and read back as absent; any other assistant reads back unchanged |
| AppointmentService.CreateBindsSix | src/services/appointmentService.ts:54-63 | `create` binds six arguments to six `?`, in column order |
| AppointmentService.CreateFixesStatus | src/services/appointmentService.ts:54-55 | `create` always writes status `'Programada'`, and the assistant column holds the normalised assistant |
| AppointmentService.UpdateCommand | src/services/appointmentService.ts:67-71 | no statement exactly when no key survives; the SET clause never names `id` or a joined name |
| AppointmentService.CreateAppointment | src/services/appointmentService.ts:52-65 | `create` runs its insert against the database |
| AppointmentService.UpdateAppointment | src/services/appointmentService.ts:67-80 | `update` changes nothing when no key survives, otherwise runs its statement |
| AppointmentService.DeleteAppointment | src/services/appointmentService.ts:82-87 | `delete` runs `DELETE ... WHERE id = ?` |
| HospitalizationService.EntryDateArg | src/services/hospitalizationService.ts:103 | a missing or empty entry date becomes the current instant; any other is kept |
| HospitalizationService.CreateBindsEleven | src/services/hospitalizationService.ts:98-106 | `create` binds eleven arguments to eleven `?`, in column order |
| HospitalizationService.DischargeDateNotInserted | src/services/hospitalizationService.ts:98-101 | `create` never writes the discharge date |
| HospitalizationService.StatusDefaultsToObservation | src/services/hospitalizationService.ts:44 | an insert without a status stores `'Observación'` |
| HospitalizationService.StatusOutsideDomainRejected | src/services/hospitalizationService.ts:44 | an insert with a status outside the four admitted ones is rejected |
| HospitalizationService.UpdateCommand | src/services/hospitalizationService.ts:110-113 | no statement exactly when no key survives; the SET clause never names `id`, `patient_name` or `doctor_name` |
| HospitalizationService.CreateHospitalization | src/services/hospitalizationService.ts:96-108 | `create` runs its insert against the database |
| HospitalizationService.UpdateHospitalization | src/services/hospitalizationService.ts:110-119 | `update` changes nothing when no key survives, otherwise runs its statement |
| HospitalizationService.DeleteHospitalization | src/services/hospitalizationService.ts:121-126 | `delete` runs `DELETE ... WHERE id = ?` |
| PatientService.CreateBindsSix | src/services/patientService.ts:37-46 | `create` binds six arguments to six `?` in the order `owner_id, name, species, breed, age_months, weight_kg` |
| PatientService.UpdateCommand | src/services/patientService.ts:49-51 | no statement exactly when no key survives; the SET clause never names `id` or `owner_name` |
| PatientService.CreatePatient | src/services/patientService.ts:35-47 | `create` runs its insert against the database |
| PatientService.UpdatePatient | src/services/patientService.ts:49-58 | `update` changes nothing when no key survives, otherwise runs its statement |
| PatientService.DeletePatient | src/services/patientService.ts:60-65 | `delete` runs `DELETE ... WHERE id = ?` |
| UserService.CreateBindsSeven | src/services/userService.ts:30-41 | `create` binds seven arguments to seven `?`, in column order |
| UserService.UpdateCommand | src/services/userService.ts:44-46 | no statement exactly when the record has no key but `id`; the SET clause never names `id` |
| UserService.UpdateWritesPasswordAndStamp | src/services/userService.ts:45 | `password_hash` and `created_at` are not held back by `update` |
| UserService.CreateUser | src/services/userService.ts:29-42 | `create` runs its insert against the database |
| UserService.UpdateUser | src/services/userService.ts:44-53 | `update` changes nothing when no key survives, otherwise runs its statement |
| UserService.DeleteUser | src/services/userService.ts:55-60 | `delete` runs `DELETE ... WHERE id = ?` |
| OwnerService.CreateBindsFive | src/services/ownerService.ts:27-28 | `create` binds five arguments to five `?`, in column order |
| OwnerService.UpdateCommand | src/services/ownerService.ts:32-35 | `update` always has a statement, and its SET clause never names `id` |
| OwnerService.EmptyUpdateStillSent | src/services/ownerService.ts:33-38 | with no field but the id, `UPDATE owners SET  WHERE id = ?` is still sent with the id alone, and the database rejects it |
| OwnerService.CreateOwner | src/services/ownerService.ts:25-30 | `create` runs its insert against the database |
| OwnerService.UpdateOwner | src/services/ownerService.ts:32-40 | `update` always runs its statement |
| OwnerService.DeleteOwner | src/services/ownerService.ts:42-47 | `delete` runs `DELETE ... WHERE id = ?` |
| HospitalizationPage.DaysElapsed | src/pages/Hospitalization.tsx:30-33 | the whole days between the two instants: `n` days fit in the distance and `n + 1` do not |
| HospitalizationPage.DaysElapsedSymmetric | src/pages/Hospitalization.tsx:32 | the order of the two instants does not matter |
| HospitalizationPage.DaysLabelInjective | src/pages/Hospitalization.tsx:34-36 | "Ingresó hoy", "Ingresó ayer" and "Ingresó hace n días" tell the day count apart: different counts give different labels |
| HospitalizationPage.StatusStyles | src/pages/Hospitalization.tsx:39-47 | only `'Crítico'` pulses, the four statuses have four different styles and any other value the neutral one |
| HospitalizationPage.AlertActiveDuringItsMinute | src/pages/Hospitalization.tsx:49-54 | an alert set for `HH:MM` is active exactly during that minute of the clock |
| HospitalizationPage.NoAlertWithoutTime | src/pages/Hospitalization.tsx:50 | an absent or empty alert time is never active |
| Staff.LoadStaff | src/pages/Staff.tsx:23 | the loaded staff are exactly the doctors and assistants, in the order loaded |
| Staff.Search | src/pages/Staff.tsx:32-35 | the search keeps, in order, exactly the members whose lower-cased name or role contains the lower-cased term |
| Staff.EmptySearchKeepsAll | src/pages/Staff.tsx:32-35 | an empty term keeps everyone |
| Staff.LongerTermNarrows | src/pages/Staff.tsx:32-35 | a term containing another finds a subsequence of what the other finds |
| Staff.EmptyStateExactlyWhenNoMatch | src/pages/Staff.tsx:178-185 | the empty-state panel shows exactly when nobody matches |
| UsersPage.UpdatePayload | src/pages/Users.tsx:46-52 | the update payload is the five profile fields, never the password or creation stamp |
| UsersPage.CreatePayload | src/pages/Users.tsx:54-62 | the create payload stores the form's password as `password_hash` and stamps `created_at` |
| UsersPage.EditKeepsPassword | src/pages/Users.tsx:46-52 | saving an edit leaves the stored password hash and creation stamp as they were |
| UsersPage.EditAlwaysSends | src/pages/Users.tsx:46-52 | saving an edit always sends an update |
| UsersPage.FormOf | src/pages/Users.tsx:76-83 | the edit form copies the user's fields and clears the password |
| UsersPage.RoleIconFallback | src/pages/Users.tsx:132 | any role but Doctor and Asistente gets the `badge` icon |
| UsersPage.UsersPageState.constructor | src/pages/Users.tsx:15-24 | the page starts with the modal closed, nobody being edited and a blank form with role Doctor |
| UsersPage.UsersPageState.HandleNew | src/pages/Users.tsx:102 | "Nuevo Usuario" clears the edited user, blanks the form and opens the modal |
| UsersPage.UsersPageState.HandleEdit | src/pages/Users.tsx:74-85 | editing records the user, fills the form from it and opens the modal |
| UsersPage.UsersPageState.HandleSave | src/pages/Users.tsx:42-72 | an update of the edited user or a create; on success the modal closes and the form is blank with role Doctor, on failure the page is unchanged |
| UsersPage.UsersPageState.HandleDelete | src/pages/Users.tsx:87-92 | the row is deleted only when the confirmation is accepted |
| App.LoginLogoutPersist | src/App.tsx:34-69 | after `login` a reload starts signed in; after `logout` it starts signed out; login then logout leaves the key absent |
| App.InitialAppointments | src/App.tsx:38-59 | the shell starts with two appointments, both on the current day |
| App.TodayCount | src/App.tsx:72-75 | the counter is at most the number of appointments |
| App.TodayCountIsIndexCount | src/App.tsx:72-75 | the counter is the number of appointments whose start falls on today's date |
| App.TodayCountZero | src/App.tsx:72-75 | the counter is zero exactly when no appointment falls on today |
| App.InitialCountIsTwo | src/App.tsx:38-75 | on the first day both initial appointments count |
| App.SignedOutRoutes | src/App.tsx:77-87 | signed out, exactly `/login`, `/recovery` and `/reset-password` show a page, only the public ones; everything else goes to `/login` |
| App.SignedInRoutes | src/App.tsx:98-110 | signed in, exactly the nine listed paths show a page, never a public one; `/login` and every other path go to `/` |
| App.RedirectsSettle | src/App.tsx:84-109 | every redirect lands on a page in one step |
| App.RoutesInjective | src/App.tsx:81-107 | two paths that show the same page are the same path |
| App.AppState.constructor | src/App.tsx:34-59 | the sign-in flag is read from the stored `vet_auth`, and the appointments are the initial two |
| App.AppState.Login | src/App.tsx:61-64 | `login` stores `"true"` under `vet_auth` alone and signs in |
| App.AppState.Logout | src/App.tsx:66-69 | `logout` removes `vet_auth` alone and signs out |
| Seed.OwnerQueryBindsSix | scripts/seed-turso.ts:45-48 | an owner's insert binds `id, cedula, full_name, phone, email, address` in that order, one per `?` |
| Seed.PatientQueryBindsSeven | scripts/seed-turso.ts:58-61 | a patient's insert binds its seven fields in column order, one per `?` |
| Seed.Batches | scripts/seed-turso.ts:51-66 | the batches joined are the query list in order; there are `ceil(n / 20)` of them, none empty or over twenty, all but the last exactly twenty |
| Seed.Plan | scripts/seed-turso.ts:33-66 | everything sent, in order: delete patients, delete owners, reset the sequence, each owner's insert, each patient's insert |
| Seed.Run | scripts/seed-turso.ts:33-66 | the calls made send exactly the plan: the three clean-up calls, then the owners' and the patients' batches of at most twenty |
| Seed.OwnersBeforeTheirPatients | scripts/seed-turso.ts:44-66 | a patient whose owner is in the file is inserted after that owner |
| Seqs.FilterIsSubsequence | src/pages/Staff.tsx:32 | a filter keeps an order-preserving subsequence of exactly the matching items |
| Seqs.FilterNarrow | src/pages/Staff.tsx:32-35 | filtering with a stronger test is filtering the weaker test's result |
| Text.ParseInt | src/pages/ScheduleConfig.tsx:106 | `parseInt` gives `NaN` exactly when no digit follows the leading white space and optional sign |
| Text.ParseIntOfDigits | src/pages/ScheduleConfig.tsx:106 | after white space, an optional sign and a run of digits ended by a non-digit, `parseInt` gives the digits' value, negated after `-` |
| Text.ParseIntOfDecimal | src/pages/ScheduleConfig.tsx:106 | `parseInt` reads back the decimal text of every integer, whatever white space comes before and non-digit text after |
| ScheduleConfig.DurationOfDecimal | src/pages/ScheduleConfig.tsx:106 | a number field holding the decimal text of a duration stores that duration (0 for `0`) |
| Text.SplitPair | src/pages/Schedule.tsx:110 | splitting `a:b` on `:`, with no colon in `a`, gives `a` and `b` |
| Text.LowerKeepsContains | src/pages/Staff.tsx:32-35 | lower-casing keeps a contained term contained |
| Text.DecimalStringValue | src/pages/Hospitalization.tsx:36 | the decimal text of a count reads back as that count |

## Left out

- Calendar.MakeDay: it has no contract of its own. Its properties are stated through `CivilFromDay`, `SetDateShift` and the month lemmas.
- Schedule.SchedulePage.HandleNavigate: the month step is the corrected one (see "## Findings"). The step as written is `Schedule.Navigate` with the lemmas about it.
- Schedule.SchedulePage.HandleSaveAppointment: it requires a form time that parses as `HH:MM`. The page's time input only produces such text.
- Calendar.NewDate: `new Date(y, m, d)` maps the years 0..99 to 1900..1999 (`MakeFullYear` of ECMA-262); the model takes the year as given, so for an anchor in those years `StartOfMonth`, `EndOfMonth` and the month view differ from the browser's. Time values beyond ±8.64e15 ms (about ±273,790 years), which give an Invalid Date, are not modelled either: the calendar is unbounded.
- Text.ParseInt: `parseInt` returns a double, so digit runs past 2^53 round; the model keeps the exact integer. The same holds for `Text.Number`.
- Text.Lower: `toLowerCase` is modelled for the capitals of ASCII, Latin-1 and Latin Extended-A (U+0000 to U+017F) that lower-case to one letter. Greek, Cyrillic and every other script are left as they are, and so is 'İ' (U+0130), which JavaScript lower-cases to two characters.
- Staff.Search: it lower-cases with `Text.Lower`, so a name or term in those scripts ("ÇELIK" is covered; "ΑΛΦΑ" searched as "α" is not) that matches only after lower-casing is dropped by the model and kept by the browser.
- An `undefined` argument: a JavaScript `undefined` bound as an argument is the value `Undefined`, which the abstract tables store and which passes a `CHECK` domain like `NULL`. What the libSQL client does with `undefined` is not modelled.
- Time zones and daylight saving time. All dates are local, so `toISOString().split('T')[0]` and `new Date("YYYY-MM-DD")` are taken as the local civil date. The UTC/local mismatch at `src/pages/Schedule.tsx:52-53` and `111` is not modelled.
- `toLocaleTimeString` is modelled as the 24-hour `HH:MM` text of the clock. `toDateString` equality is modelled as the same calendar day.
- `new Date(dateStr)` on the in-patient board is a given `Option` date. A string that does not parse gives the `NaN` label.
- `JSON.parse`/`JSON.stringify`:
  - Only the subset that a list of appointment types needs is modelled: objects with five keys in the defaults' order, string literals with their escapes, and integers.
  - Stored text of any other shape (other key orders, numbers with fractions, values that are not lists) is modelled as not parsing, so it gives the defaults. In the browser such text could parse and be returned as it is.
- Every `getAll` and its row mapping (fixed `SELECT` text and positional casts) is not modelled. The exception is the `assistant_id` normalisation.
- The remote database is an abstract set of tables, each a map from id to row with its `CHECK` domains and `DEFAULT`s. The following are not modelled:
  - `NOT NULL` and foreign-key constraints;
  - SQL joins;
  - the `DDL` of `hospitalizationService.init` (it is stated as a `Schema`);
  - the libSQL client and the network.
- Sql.Render: the exact SQL text is built from the same pieces the services use and is not compared with the source's literal strings character by character. What is proved about it is the count of `?` against the bound arguments, and the arguments.
- `src/services/medicalRecordService.ts` and `src/lib/turso.ts` are not part of this model: they are database plumbing.
- `src/lib/storage.ts` is not part of this model: it is a storage SDK call with random file names.
- The static pages and the sidebar are not modelled: Dashboard, Patients, Owners, Inventory, MedicalRecords, Login, Recovery, ResetPassword, Settings and `src/components/Sidebar.tsx`. They hold fixed data and markup.
- The route tables match paths exactly. React Router's case-insensitive matching and trailing-slash tolerance are not modelled.
- `migrate.ts`, `scripts/seed-appointments.ts` and `scripts/seed-hospitalizations.ts` are not modelled: they are one-shot scripts over the environment and the file system.
- Seed.Run: it models what the loader sends for a data file that loads. These are not modelled: reading the file, the console messages, a failing call ending the run through the `catch`, and `process.exit`.
- Randomness, `window.confirm` and `alert` become parameters: the fresh appointment id and the confirmation flag. A failing service call is the `Err` result.
- React rendering, animations, timers and the order of `async` calls are not modelled. Each handler is one atomic update of its page's state.
- Pixel geometry is exact rational arithmetic (`real`), not floating point.
- The agenda's own type table (Consulta 39 minutes) and the stored configuration (Consulta 30 minutes) are separate, as in the program. No link between them is modelled.

## Findings

| source | as written | input that shows it | evidently intended | confidence | as-written member | corrected member |
|---|---|---|---|---|---|---|
| src/pages/Schedule.tsx:104 | the month step calls `setMonth(getMonth() + direction)` on the anchor, which keeps its date and overflows into the following month when the target month is shorter | anchor January 31, step forward: the result is March 3 (March 2 in a leap year), so February is skipped | a step of one month lands in the next month, on the same date or on that month's last day | not executed | Schedule.MonthStepSkipsFebruary | Schedule.NavigateMonthClampedLandsInTarget |

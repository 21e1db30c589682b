# Barbershop store — a Dafny model

This project models the core of a single-tenant barbershop manager. It has
a client roster, a service catalogue, a barber roster with one default
barber, an appointment log, and a public intake of scheduling requests.
All of it lives in one persisted document.

The model covers:

- **The document store** (`db.dfy`):
  - the schema upgrade `migrateDB`, as a `Document` class whose method runs the steps in place and reports whether anything changed;
  - the seeded document;
  - the default-barber and reassignment helpers;
  - the request counters;
  - creating a scheduling request and changing its status.
- **The date helpers** (`helpers.dfy`, `calendar.dfy`): start and end of day, day differences, range filtering, the `YYYY-MM-DD` parser and formatter, `DD/MM/YYYY`, and the relative-time caption. Instants are integer milliseconds and days have a fixed length of 86 400 000 ms; `calendar.dfy` is the proleptic Gregorian calendar that the JavaScript `Date` applies.
- **The pages that change the document** (each one a method on a loaded `Document`, specified by a function of the old state):
  - Barbers (`barbers.dfy`);
  - Clients (`clients.dfy`);
  - Services (`services.dfy`);
  - New appointment (`new_appointment.dfy`);
  - the public booking form (`schedule.dfy`).
- **The read models**:
  - the Dashboard's period, its label and the statistics (`dashboard.dfy`);
  - the last-visit report with its search and badges (`clients_last_visit.dfy`);
  - the Inbox's tabs, order, counts, detail pane and offered status changes (`inbox.dfy`).
- **The mock login** (`auth.dfy`): one hard-coded credential pair and a stored flag.

`base.dfy` holds the JavaScript built-ins the code relies on: `filter`, `find`, `findIndex`, `map`, `Set`, `reduce`, a stable descending sort, `trim` (with every white-space and line-terminator character it removes), `toLowerCase`, `includes`, `split`, `padStart`, `String(n)` and `Number(s)`. `schema.dfy` holds the records.

Conventions:

- "Now", fresh ids (`crypto.randomUUID`) and today's date text are parameters.
- The empty string stands for every falsy id.
- Money is an integer number of cents.

Where the code departs from what one might expect of it, the model follows the code:

- `setDefaultBarber` with an unknown id clears every flag and still records the id (`BarbersPage.SetUnknownDefaultFlagsNone`). It does not ignore the call.
- `migrateDB` guarantees at least one flagged barber, not exactly one. It never compares `defaultBarberId` with the flags (`Db.MigrateKeepsTwoDefaults`). Only the page handlers keep exactly one default (`BarbersPage.Consistent`).
- `migrateDB` leaves a missing `version` missing, because `undefined < 3` is false.
- Recording an appointment overwrites the client's `lastVisitAt`. A backdated appointment therefore lowers it (`NewAppointmentPage.BackdatedVisitLowersLastVisit`); the value is not kept at its maximum.
- The day caption of the last-visit report reads "1 dia" for one day, not "1 dias".
- A pending request can go straight to done or dismissed without being marked seen first. `updateRequestStatus` itself accepts any status; only the buttons restrict the choice.
- A service price is never checked for sign. An appointment price of zero is accepted.

## Model

| member | source | states |
|---|---|---|
| Db.InitialIsCurrent | src/storage/db.js:15-38 | the seeded document already has every field migration would add: migrating it reports no change and leaves it as it is |
| Db.Backfilled | src/storage/db.js:53-59 | each appointment without a barber gets the seeded barber's id; the others keep theirs; length and order are kept |
| Db.SeededBarbers | src/storage/db.js:45-60 | a document without a barber list gets exactly one default barber "Barbeiro 1"; its id becomes defaultBarberId and fills every missing appointment barber |
| Db.ElectDefaultKeeps | src/storage/db.js:62-70 | electing a default changes only the flags and defaultBarberId, keeps the barber ids in order, and leaves a flagged barber whenever it acts |
| Db.FlagFirstKeeps | src/storage/db.js:72-78 | flagging the first barber changes only that flag and defaultBarberId, and a non-empty roster ends with a flagged barber |
| Db.BarberStepsKeep | src/storage/db.js:44-78 | the three barber steps touch only barbers, defaultBarberId and appointments; an existing roster keeps its ids in order and its appointments |
| Db.LateStepsKeep | src/storage/db.js:80-104 | the request, ui and version steps touch only those fields: an existing request list is kept, lastSeenRequestAt becomes defined, and a numeric version is raised to at least 3 and never lowered |
| Db.MigrateUpgrades | src/storage/db.js:41-106 | after migration: barbers and schedulingRequests are arrays, a non-empty roster has a flagged barber, lastSeenRequestAt is defined, a numeric version is at least 3 and never lowered, and a missing version stays missing |
| Db.MigrateKeeps | src/storage/db.js:41-106 | migration removes nothing: services, clients, shop name and existing requests are kept; an existing roster keeps its ids and appointments; a missing roster becomes the seeded barber |
| Db.BarberStepsIds | src/storage/db.js:44-78 | with non-empty barber ids, a non-empty roster ends with a non-empty defaultBarberId |
| Db.MigrateSetsDefaultId | src/storage/db.js:41-106 | with non-empty barber ids (randomUUID gives such ids), a migrated document with barbers has a non-empty defaultBarberId |
| Db.MigrateIdempotent | src/storage/db.js:41-106 | a second migration reports no change and leaves the document alone, whatever id it would draw |
| Db.MigrateKeepsTwoDefaults | src/storage/db.js:63-78 | a document with two flagged barbers and a dangling defaultBarberId passes migration unchanged |
| Db.Document.MigrateDB | src/storage/db.js:41-106 | the in-place migration yields the step-by-step upgraded document, and its flag is true exactly when some step acted |
| Db.Document.SeedBarbers | src/storage/db.js:45-60 | step 1 in place, as Db.SeededBarbers describes |
| Db.Document.ElectDefault | src/storage/db.js:62-70 | step 2 in place: the first flagged barber (else the first barber) becomes the default and is flagged |
| Db.Document.FlagFirst | src/storage/db.js:72-78 | step 3 in place: with no flagged barber, the first is flagged and becomes the default |
| Db.Document.AddRequests | src/storage/db.js:80-84 | step 4 in place: a missing request list becomes empty |
| Db.Document.FillUi | src/storage/db.js:86-98 | steps 5 and 6 in place: a missing ui, or a missing lastSeenRequestAt, becomes null |
| Db.Document.RaiseVersion | src/storage/db.js:100-104 | step 7 in place: a version below 3 becomes 3 |
| Db.WithDefault | src/storage/db.js:147-153 | each barber's flag becomes "its id is the chosen id"; nothing else changes |
| Db.WithDefaultCount | src/storage/db.js:147-153 | after setDefaultBarber, exactly as many barbers are flagged as carry the id |
| Db.Document.SetDefaultBarber | src/storage/db.js:147-153 | the loop over the barbers sets every flag as Db.WithDefault does and records the id; nothing else in the document changes |
| BarbersPage.SetUnknownDefaultFlagsNone | src/storage/db.js:149-152 | an id that no barber has leaves no barber flagged |
| Db.Reassigned | src/storage/db.js:156-163 | exactly the appointments of the old barber now name the new one; every other appointment, the length and the order are unchanged |
| Db.ReassignedCounts | src/storage/db.js:156-163 | afterwards no appointment names the old barber, and the new barber holds the appointments of both |
| Db.Document.ReassignAppointmentsBarber | src/storage/db.js:156-163 | the document changes only in its appointments, which become Db.Reassigned of the old ones |
| Db.GetDefaultBarber | src/storage/db.js:166-168 | the first flagged barber if there is one, else the first barber, else none |
| Db.CountPendingRequests | src/storage/db.js:171-175 | at most the number of requests, and zero exactly when no request is PENDING |
| Db.CountNewRequests | src/storage/db.js:178-188 | at most the pending count, equal to it when lastSeenRequestAt is unset, and zero exactly when no pending request was created after it |
| Db.OrNull | src/storage/db.js:205-206 | a falsy id becomes null and any other id is kept |
| Db.Document.UpdateLastSeenRequestAt | src/storage/db.js:191-194 | lastSeenRequestAt becomes now; nothing else changes |
| Db.Document.CreateSchedulingRequest | src/storage/db.js:197-214 | appends one PENDING request with createdAt == updatedAt == now and returns it; earlier requests and the rest of the document are unchanged |
| Db.StatusUpdated | src/storage/db.js:217-224 | the first request with the id, and only it, gets the new status and updatedAt = now; every other request is kept in place; the length is kept, and an unknown id leaves the list unchanged |
| Db.StatusUpdatedPending | src/storage/db.js:217-224 | a status change moves the pending count down by one if the request was pending and up by one if the new status is PENDING |
| Db.Document.UpdateRequestStatus | src/storage/db.js:217-224 | returns the updated request, with the new status and updatedAt == now, exactly when the id exists; otherwise it returns nothing and nothing changes |
| Helpers.StartOfDay | src/storage/helpers.js:21-25 | local midnight of the instant's day: at most the instant, less than a day before it, and on the same day |
| Helpers.EndOfDay | src/storage/helpers.js:28-32 | the last millisecond of the instant's day: on the same day, the next millisecond falls on the next day, and it is at least the instant |
| Helpers.DaysBetween | src/storage/helpers.js:67-72 | the difference of the two day numbers, whatever the hours |
| Helpers.DaysBetweenCalendar | src/storage/helpers.js:67-72 | the same day gives 0, crossing one midnight gives 1, and swapping the arguments negates the result |
| Helpers.IsWithinLastDays | src/storage/helpers.js:75-79 | false without a date; otherwise true exactly when the date's day lies between `days` days ago and today |
| Helpers.WithinLastDaysWindow | src/storage/helpers.js:75-79 | the same window in milliseconds: from midnight `days` days ago to the end of today |
| Helpers.FilterAppointmentsByRange | src/storage/helpers.js:91-99 | keeps exactly the appointments between midnight of the start day and the end of the end day (bounds inclusive); empty when the start day comes after the end day |
| Helpers.RangeByDays | src/storage/helpers.js:91-99 | an appointment is kept exactly when its day lies between the start day and the end day |
| Helpers.ParseYmd | src/storage/helpers.js:35-40 | null exactly for the empty string; a parsed date is always a local midnight |
| Helpers.ParseToDateInputValue | src/storage/helpers.js:82-88 | parsing the YYYY-MM-DD text of an instant gives midnight of its day, for years from 100 on |
| Helpers.FormatDateBR | src/storage/helpers.js:43-50 | the empty string exactly for a falsy date |
| Helpers.FormatDateBRFields | src/storage/helpers.js:43-50 | the text reads back as two-digit day, '/', two-digit month, '/', year of the instant's calendar date |
| Helpers.FormatRelativeTime | src/storage/helpers.js:102-126 | the empty string exactly when there is no date |
| Helpers.RelativeTimeThresholds | src/storage/helpers.js:102-126 | the caption for each band of elapsed time: "agora", "Nmin atrás", "Nh atrás", "ontem", "N dias atrás", then DD/MM/YYYY from seven days |
| Calendar.CivilFromDays | src/storage/helpers.js:83-86 | the year, the month (1 to 12) and a day within that month, which read back to the same day number |
| Calendar.CivilRoundTrip | src/storage/helpers.js:83-86 | getFullYear, getMonth() + 1 and getDate of a real calendar date's day number give that date back |
| DashboardPage.PresetWindow | src/pages/Dashboard.jsx:53-57 | a preset of n days holds exactly the appointments of today and the n - 1 days before; a preset of one day holds today only |
| DashboardPage.CustomWindow | src/pages/Dashboard.jsx:46-51 | a custom period of two valid dates holds exactly the appointments from the first midnight up to the end of the last day |
| DashboardPage.PeriodLabel | src/pages/Dashboard.jsx:61-78 | a preset is labelled "Hoje" exactly when it covers one day |
| DashboardPage.PresetLabelTemplate | src/pages/Dashboard.jsx:68-77 | every preset except one day reads "Últimos N dias"; the fixed labels for 7 and 30 follow that template |
| DashboardPage.PresetLabelsDistinct | src/pages/Dashboard.jsx:68-77 | different presets get different labels |
| DashboardPage.ApplyFacts | src/pages/Dashboard.jsx:130-151 | a custom range is refused exactly when a date is missing or the start is after the end; the missing-dates message comes exactly when a date is missing; an applied range of valid dates covers the whole first day |
| DashboardPage.InvalidCustomIsEmpty | src/pages/Dashboard.jsx:130-151 | non-empty text that is not a date passes the check, and the period then shows no appointments |
| DashboardPage.RecordedTallies | src/pages/Dashboard.jsx:313-322 | one step of the forEach keeps the map equal to the per-barber revenue and count of the appointments seen so far; a falsy barber id is skipped |
| DashboardPage.TallyByBarber | src/pages/Dashboard.jsx:312-322 | the loop builds a map that gives every barber id the revenue and the count of its appointments |
| DashboardPage.TallyFacts | src/pages/Dashboard.jsx:316-320 | a tally counts the barber's appointments, never more than the list holds, and has no revenue without visits |
| DashboardPage.RevenueByBarberFacts | src/pages/Dashboard.jsx:325-337 | sorted by revenue descending; a barber of the roster appears exactly when its revenue is positive, with its name, flag, revenue and count; entries have a count of at least one; the list is a reordering of the roster's stats with positive revenue, so each barber appears at most once |
| DashboardPage.RevenueTiesKeepRosterOrder | src/pages/Dashboard.jsx:337 | barbers with equal revenue keep their roster order |
| DashboardPage.InactiveClientsMembers | src/pages/Dashboard.jsx:341-352 | one entry per client never seen or not seen for 15 days or more, and nothing else |
| DashboardPage.AnnotateCaption | src/pages/Dashboard.jsx:343-349 | "Nunca visitou" exactly for a client never seen; otherwise "N dias" with N at least 15 |
| DashboardPage.InactiveClientsOrder | src/pages/Dashboard.jsx:353-359 | clients never seen come first, then the longest absence first |
| DashboardPage.ClientsServedBounds | src/pages/Dashboard.jsx:305-306 | at most one client per appointment, zero exactly without appointments, and a repeat visit does not raise the count |
| DashboardPage.ComputeStats | src/pages/Dashboard.jsx:294-362 | clients served, revenue, revenue per barber (through the tally loop) and inactive clients, each computed from the appointments of the period or, for inactive clients, from now alone |
| ClientsLastVisitPage.BuildListMembers | src/pages/ClientsLastVisit.jsx:8-30 | one row per client, a permutation of the clients' rows, each the row built for its client |
| ClientsLastVisitPage.DaysLabelDistinct | src/pages/ClientsLastVisit.jsx:28 | different day counts get different captions |
| ClientsLastVisitPage.BuildListOrder | src/pages/ClientsLastVisit.jsx:31-37 | clients never seen first, then the most days first; equal day counts keep document order |
| ClientsLastVisitPage.SearchShows | src/pages/ClientsLastVisit.jsx:52-59 | a blank term shows every row, and a row whose name contains the term in any letter case is shown |
| ClientsLastVisitPage.SearchNarrows | src/pages/ClientsLastVisit.jsx:52-59 | a longer term never shows a row that the shorter term hides |
| ClientsLastVisitPage.BadgeMonotone | src/pages/ClientsLastVisit.jsx:62-67 | a longer absence never gets a milder badge |
| ClientsLastVisitPage.BadgesFollowList | src/pages/ClientsLastVisit.jsx:62-67 | down the sorted list the badges never become more urgent |
| ClientsLastVisitPage.BadgeAgreesWithDashboard | src/pages/ClientsLastVisit.jsx:62-67 | a badge is anything but green exactly when the Dashboard lists the client as inactive |
| InboxPage.VisibleMembers | src/pages/Inbox.jsx:85-97 | each tab shows exactly the requests with its statuses, each as often as stored |
| InboxPage.VisibleOrder | src/pages/Inbox.jsx:98 | newest first; requests created at the same instant keep their stored order |
| InboxPage.AllTabShowsAll | src/pages/Inbox.jsx:94-95 | the 'all' tab shows every request |
| InboxPage.TabCountsPartition | src/pages/Inbox.jsx:100-104 | the three counts add up to the number of requests with one of the four known statuses |
| InboxPage.TabCountAfterChange | src/pages/Inbox.jsx:100-104 | a status change moves the request from its old tab's count to its new tab's count |
| InboxPage.Selected | src/pages/Inbox.jsx:107 | the request with the selected id if shown, else the first shown, else none |
| InboxPage.ActionsFacts | src/pages/Inbox.jsx:353-400 | no action keeps the status, an unknown status offers nothing, a seen request is never offered PENDING, and every action except marking seen moves the request between the active tab and the others |
| InboxPage.ActionsReach | src/pages/Inbox.jsx:474-535 | from any known status the offered actions reach both PENDING and DONE |
| InboxPage.Open | src/pages/Inbox.jsx:41-43 | returns the stored requests and stamps lastSeenRequestAt with now, changing nothing else |
| InboxPage.OpenClearsNew | src/pages/Inbox.jsx:41-43 | after opening, no request created up to then counts as new |
| InboxPage.ChangeStatus | src/pages/Inbox.jsx:61-66 | the request list becomes the status-updated one; nothing else changes |
| BarbersPage.InitialConsistent | src/storage/db.js:15-38 | the seeded document keeps the roster invariant, with exactly one default barber |
| BarbersPage.AddBarber | src/pages/Barbers.jsx:18-45 | a blank name changes nothing; otherwise the trimmed barber is appended, and it is flagged and made the default only when the roster was empty |
| BarbersPage.AddBarberKeepsConsistent | src/pages/Barbers.jsx:18-45 | with a fresh id the roster invariant is kept; the roster grows by one exactly for a non-blank name; the first barber becomes the default and a later one leaves the default as it was |
| BarbersPage.SetDefault | src/pages/Barbers.jsx:47-55 | the flags and defaultBarberId change as setDefaultBarber sets them; nothing else changes |
| BarbersPage.SetDefaultKeepsConsistent | src/pages/Barbers.jsx:47-55 | choosing a listed barber keeps the roster invariant and flags exactly one barber |
| BarbersPage.RemoveBarber | src/pages/Barbers.jsx:57-87 | the document becomes the one handleRemove saves, or stays as it was when the guard refuses or the id is unknown |
| BarbersPage.RemoveOutcomes | src/pages/Barbers.jsx:57-65 | removal succeeds exactly when the id exists and is not the only barber; it is refused exactly when one barber remains; a refusal or an unknown id leaves the document unchanged |
| BarbersPage.RosterAfterFacts | src/pages/Barbers.jsx:67-81 | the new roster is one shorter, without the id, with distinct ids and every other barber in its old order, and flags exactly the new default, which is one of them |
| BarbersPage.RemoveKeepsConsistent | src/pages/Barbers.jsx:57-87 | removing a listed barber of two or more keeps the roster invariant; the barber is gone and the roster is one shorter; its appointments move to the default and every other appointment keeps its barber |
| ClientsPage.AddClient | src/pages/Clients.jsx:16-35 | a blank name changes nothing; otherwise a client with trimmed name and phone and no visit is appended |
| ClientsPage.AddClientFacts | src/pages/Clients.jsx:16-35 | the list grows by one exactly for a non-blank name; earlier clients stay in place; the new client has the fresh id, a non-blank name and no visit; every appointment still names a client |
| ClientsPage.RemoveClient | src/pages/Clients.jsx:37-46 | the client and all of its appointments are removed; the rest keep their order |
| ClientsPage.RemoveClientFacts | src/pages/Clients.jsx:37-46 | nothing refers to the client afterwards; exactly its appointments are gone; every other client and appointment remains; appointments stay linked to clients; barbers, services and requests are untouched |
| ClientsPage.FormatPhone | src/pages/Clients.jsx:54-57 | never empty; a phone is shown as it is |
| ServicesPage.AddService | src/pages/Services.jsx:17-35 | a blank name or an empty price changes nothing; otherwise one service is appended |
| ServicesPage.AddServiceFacts | src/pages/Services.jsx:17-35 | only the service list changes: earlier services stay in place and exactly one is appended for a filled form, with any price sign |
| ServicesPage.RemoveService | src/pages/Services.jsx:37-43 | exactly the services with the id are removed |
| ServicesPage.RemoveServiceFacts | src/pages/Services.jsx:37-43 | the remaining services are exactly those with another id; appointments and requests are untouched |
| ServicesPage.RemoveServiceLeavesDangling | src/pages/Services.jsx:37-43 | removing a service can leave an appointment that names it |
| SchedulePage.ValidateOrder | src/pages/Schedule.jsx:42-58 | the form passes exactly with a name, a phone, a date and a time, and each error is reported only once every earlier check has passed |
| SchedulePage.Submit | src/pages/Schedule.jsx:38-74 | a failing check files nothing; otherwise exactly one request is appended and nothing else changes |
| SchedulePage.FiledRequestFacts | src/pages/Schedule.jsx:60-69 | the filed request is PENDING, stamped now, with a non-blank trimmed name and phone and trimmed notes, and has no service or barber exactly when none was chosen |
| SchedulePage.NewBookingFormNeedsName | src/pages/Schedule.jsx:76-86 | the cleared form is refused until a name is typed |
| NewAppointmentPage.PrefillClient | src/pages/NewAppointment.jsx:57-74 | selects the first client whose phone digits match the request's; else new-client mode with the request's name and phone; without a phone, new-client mode with the name; no other field changes |
| NewAppointmentPage.PrefillService | src/pages/NewAppointment.jsx:76-86 | the request's service with its price when it exists, else the first service; no other field changes |
| NewAppointmentPage.PrefillBarber | src/pages/NewAppointment.jsx:88-95 | the request's barber when it exists, else defaultBarberId, else the first barber; no other field changes |
| NewAppointmentPage.EmptyPrefillIsInitial | src/pages/NewAppointment.jsx:35-95 | an empty request prefills the same selection as the plain initialisation |
| NewAppointmentPage.ValidateAccepts | src/pages/NewAppointment.jsx:118-142 | the form passes exactly with a client for its mode, a service, a barber, a price of zero or more and a date |
| NewAppointmentPage.NoonOf | src/pages/NewAppointment.jsx:160 | never null; a valid result is noon of a day, and only text shaped YYYY-MM-DD gives one |
| NewAppointmentPage.NoonOfReadsBack | src/pages/NewAppointment.jsx:160 | a YYYY-MM-DD text naming a real date, years 0000 to 0099 included, is stored at noon of exactly that year, month and day |
| NewAppointmentPage.NoonOfDateInput | src/pages/NewAppointment.jsx:160 | the toDateInputValue text of an instant in a four-digit year gives noon of that instant's day |
| NewAppointmentPage.Submit | src/pages/NewAppointment.jsx:115-186 | the document becomes the one handleSubmit saves; a failing check or an unparsable date saves nothing |
| NewAppointmentPage.SubmitFacts | src/pages/NewAppointment.jsx:159-170 | exactly one appointment is appended, at noon of the chosen day, with the form's service, barber and non-negative price, naming the new or the selected client; only clients and appointments change |
| NewAppointmentPage.SubmitClientFacts | src/pages/NewAppointment.jsx:147-176 | new-client mode appends exactly one client with the fresh id, trimmed fields and this visit; the appointment's client gets lastVisitAt overwritten; every other client is untouched |
| NewAppointmentPage.BackdatedVisitLowersLastVisit | src/pages/NewAppointment.jsx:172-176 | a backdated appointment lowers the stored last visit |
| NewAppointmentPage.ResetForm | src/pages/NewAppointment.jsx:188-195 | service, barber and price survive the reset |
| NewAppointmentPage.ResetNeedsClient | src/pages/NewAppointment.jsx:188-195 | a reset form is refused until a client is chosen |
| Auth.CheckLogin | src/auth/auth.js:9-15 | success exactly for the hard-coded pair; otherwise the fixed error message |
| Auth.AuthStore.Login | src/auth/auth.js:9-15 | success stores the flag, so isAuthenticated holds; failure leaves the entry and isAuthenticated as they were |
| Auth.AuthStore.Logout | src/auth/auth.js:17-19 | the entry is removed and isAuthenticated no longer holds |

## Left out

- localStorage and JSON: `loadDB`, `saveDB`, `resetDB` and the Dashboard's `loadPeriod`/`savePeriod` are I/O. A `Document` stands for the loaded, migrated document, and the `updatedAt`/`createdAt` stamps are not modelled. Only the seeded document's contents (`Db.InitialDB`) are modelled.
- The current time, `crypto.randomUUID` and today's date text are parameters. Time zones and daylight saving are left out: every day lasts 86 400 000 ms.
- Floating point: prices are integer cents. `parseFloat` and `moneyBRL` (Intl currency formatting) are not modelled, and neither are NaN prices or sums.
- `Number()` is modelled for digit strings only, with "" read as 0. Signs, spaces, decimals and exponents are treated as not a number.
- `toLowerCase` is modelled for ASCII letters only.
- A stored `version` that is null or not a number is not modelled.
- A `barbers` or `schedulingRequests` value that is present but not an array is not modelled.
- ISO timestamps are compared as instants. Stored text that does not parse as a date is not modelled.
- `toISODate`, `formatTime` and `moneyBRL` in helpers.js are not part of this model.
- Presentation is left out: React state and effects, rendering, routing, message timers, the modal's open state, the navigation of `handleCreateAppointment`, and the name and price lookups of the Inbox.
- Concurrent access from several tabs is left out; the code does not address it.
- Auth.AuthStore.Login: its contract refers to the old entry, so it is stated on the class state. `Auth.CheckLogin` carries the same decision as a pure function.
- BarbersPage.RemoveBarber: an unknown id throws in the source (it reads `isDefault` of undefined) before anything is saved. The model returns `UnknownBarber` with the document unchanged.
- NewAppointmentPage.Submit: a date text that does not parse makes `toISOString` throw in the source before anything is saved. The model returns `DateThrows` with the document unchanged.
- Helpers.ParseToDateInputValue: proved only for years from 100 on, because the Date constructor maps years 0 to 99 into the 1900s and negative years carry a sign.
- NewAppointmentPage.NoonOfDateInput: proved only for years 1000 to 9999, because `toDateInputValue` writes the year unpadded, and `new Date(date + 'T12:00:00')` reads only a four-digit year as an ISO date.
- NewAppointmentPage.IsoDateDay: the ISO parse behind `new Date(date + 'T12:00:00')` is modelled for the four-digit-year form only. The expanded ±YYYYYY years are not modelled. Neither is the engine-specific fallback parse of other text: such text gives an Invalid Date here. Days 29 to 31 past the end of their month roll into the next month, as in V8; other engines refuse them.
- Db.MigrateSetsDefaultId: assumes that stored barber ids are non-empty, as randomUUID ids are.
- NewAppointmentPage.SubmitClientFacts: assumes that the fresh client id is not already in use.
- Db.MigrateIdempotent: assumes non-empty barber ids and a non-empty drawn id. With an empty id, a second run would elect a default again.

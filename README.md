# Psychology clinic booking: a verified model of the server actions

The system is a web application for a university psychology clinic. Administrators manage staff members (psychologists), patients and consultation rooms. Staff members publish weekly availability windows ("horarios"). Appointments ("citas") are booked inside those windows. Every change goes through a server action: a zod schema validates the request, a sequence of Prisma lookups checks it against the database, and one write (upsert, update or delete) stores it.

This project models those actions in Dafny:

- **Times and intervals.** Times are the schemas' "HH:MM" strings, read as minutes since midnight. Intervals are half-open. The three-clause overlap filter of the conflict queries is proved to mean exactly half-open overlap.
- **Appointment and schedule saves.** Schema, existence and active checks, the availability-window containment and the conflict search are all modelled. Every successful save is proved to keep the invariant "no two blocking appointments of one staff member overlap on a date" and "no two windows of one staff member overlap on a weekday".
- **Appointment lifecycle.** Cancel is a small state machine that appends a note. Delete is unconditional. The status transitions and the edit guard that exist only in the staff member's interface are modelled separately, in their own modules. No server-side guard is invented.
- **Record store.** The create-or-update validators of staff, patients, administrators and rooms. Each delete's soft / hard / refused policy. The paginated listings, with their filters, `skip`, `totalPages` and next/previous flags.

The database is the class `Store.Database`, with one autoincrement table (`map<int, T>` plus the next id) per entity. Each action is a method on it. The method's `ensures` ties its result and the new state to a function of the old state, `(r, db.Snapshot()) == Spec(old(db.Snapshot()), ...)`. Each method also preserves `db.Valid()`: tables well formed, references resolved, e-mails and room codes unique, and the two non-overlap invariants. The lemmas about those functions state what the source promises.

Calls into code that is not modelled are taken as parameters:

- the bcrypt hash is `hash`;
- zod's `.email()` is `isEmail`;
- JavaScript's `Number()` on form fields is `toNumber`;
- the database default `now()` is `today`;
- the order the database returns rows in is `order`.

## Model

| member | source | states |
|---|---|---|
| TimeOfDay.ParseClock | app/actions/appointment/create-update-appointment.ts:21-32 | A time is accepted exactly when it matches the strict 24-hour "HH:MM" pattern, and its value is hours*60+minutes |
| TimeOfDay.ClockRoundTrip | app/actions/schedule/create-update-schedule.ts:16-27 | Every minute 00:00..23:59 has an accepted zero-padded text that reads back to that minute |
| TimeOfDay.ClockCanonical | app/actions/schedule/create-update-schedule.ts:16-27 | Every accepted text is the zero-padded form of its own value |
| TimeOfDay.ClockOrder | app/components/staff/appointments/MyAppointmentModal.tsx:89-92 | On accepted texts, JavaScript's string `<` orders them as their minutes do |
| TimeOfDay.QueryOverlapIsOverlap | app/actions/appointment/create-update-appointment.ts:219-243 | For proper intervals, the three-clause OR filter holds exactly when the half-open intervals overlap (`s < E && S < e`) |
| TimeOfDay.OverlapsSymmetric | app/actions/schedule/create-update-schedule.ts:124-147 | Overlap does not depend on which interval is the stored one |
| TimeOfDay.TouchingDoNotOverlap | app/actions/schedule/create-update-schedule.ts:124-147 | Back-to-back intervals neither overlap nor satisfy the filter in either direction |
| AppointmentStatus.FromName | app/actions/appointment/create-update-appointment.ts:33-35 | The status enum accepts only the five names, and a parsed name prints back as itself |
| AppointmentStatus.NameRoundTrip | app/actions/appointment/create-update-appointment.ts:33-35 | Each of the five statuses parses back from its own name |
| Calendar.Weekday | app/actions/appointment/create-update-appointment.ts:186-190 | `getDay()` of a date is in 0..6 (0 is Sunday) |
| Calendar.WeekdayRepeats | app/actions/appointment/create-update-appointment.ts:186-190 | Weekdays repeat every 7 days and advance by one each day |
| AppointmentSave.Validate | app/actions/appointment/create-update-appointment.ts:9-54 | A request is accepted exactly when both ids are positive, both times match HH:MM, the status (if given) is one of the five names, the consultation type (if given) has at most 50 characters, the room and creator ids (if given) are positive, and the end is after the start. A missing patient or then a missing staff id reports its own error. An accepted request has its interval as the two times in minutes and its status as the named one (pending when absent), and the other fields are copied |
| AppointmentSave.ConflictQueryIsOverlap | app/actions/appointment/create-update-appointment.ts:211-291 | The conflict query finds nothing exactly when no other pending or confirmed appointment of the same staff member and date overlaps the candidate half-open |
| AppointmentSave.SaveSucceedsIffAdmissible | app/actions/appointment/create-update-appointment.ts:96-313 | A validated request is saved exactly when: an updated id exists; patient and staff member exist and are active; a given room exists and is active; an available window of that weekday contains the interval; and no blocking appointment overlaps it. A schema failure is reported unchanged |
| AppointmentSave.SaveWrites | app/actions/appointment/create-update-appointment.ts:294-318 | A refused save changes nothing. A saved one writes the validated fields under the requested id, or a fresh id on create, and leaves every other row and table unchanged |
| AppointmentSave.PreviousStatusIgnored | app/actions/appointment/create-update-appointment.ts:33-35 | Changing an appointment's stored status does not change whether an update of it is accepted: there is no server-side transition rule |
| AppointmentSave.SelfExcludedOnUpdate | app/actions/appointment/create-update-appointment.ts:252-291 | On update, a blocking appointment never conflicts with its own stored interval |
| AppointmentSave.ResaveUnchangedSucceeds | app/actions/appointment/create-update-appointment.ts:252-291 | Re-saving a blocking appointment with its own times, staff member and date succeeds while its patient, staff member and window are still valid |
| AppointmentSave.RequestedStatusIgnoredByConflict | app/actions/appointment/create-update-appointment.ts:211-251 | A stored blocking appointment that overlaps the candidate refuses the save, even when the request itself sets a non-blocking status |
| AppointmentSave.SavePreservesConsistency | app/actions/appointment/create-update-appointment.ts:211-313 | Every save keeps blocking appointments of one staff member and date pairwise non-overlapping, and keeps all references resolved |
| AppointmentSave.CreateOrUpdateAppointment | app/actions/appointment/create-update-appointment.ts:75-318 | The action runs the checks in order with early returns, then one upsert. Its result and new store are those of the save function, and the store stays valid |
| ScheduleSave.Validate | app/actions/schedule/create-update-schedule.ts:9-43 | A window is accepted exactly when the staff id is positive, the weekday is in 0..6, both times match HH:MM and the end is after the start. A missing staff id reports StaffIdRequired, then a weekday out of range DayOutOfRange. An accepted window has its interval in minutes, and `available` true unless given false |
| ScheduleSave.SaveSucceedsIffAdmissible | app/actions/schedule/create-update-schedule.ts:80-216 | A validated window is saved exactly when an updated id exists, the staff member exists and is active, and no other window of that staff member and weekday overlaps it half-open |
| ScheduleSave.SaveWrites | app/actions/schedule/create-update-schedule.ts:197-216 | A refused save changes nothing. A saved one stores exactly the validated staff, weekday, times and availability, under the requested id or a fresh one |
| ScheduleSave.UnavailableWindowsStillBlock | app/actions/schedule/create-update-schedule.ts:120-157 | A stored window that overlaps the candidate refuses the save even when it is marked unavailable |
| ScheduleSave.SelfExcludedOnUpdate | app/actions/schedule/create-update-schedule.ts:159-195 | On update, a window never conflicts with its own stored times |
| ScheduleSave.SavePreservesConsistency | app/actions/schedule/create-update-schedule.ts:120-216 | Every save keeps the windows of one staff member and weekday pairwise non-overlapping |
| ScheduleSave.CreateOrUpdateSchedule | app/actions/schedule/create-update-schedule.ts:60-216 | The action's result and new store are those of the save function, and the store stays valid |
| AppointmentRemoval.DeleteOutcome | app/actions/appointment/delete-appointment.ts:7-87 | The delete fails exactly for a non-positive or unknown id, and then nothing changes. Otherwise it removes exactly that appointment, whatever its status: every other appointment keeps its value, `nextId` and the other tables are unchanged. Only the message tells a completed one apart |
| AppointmentRemoval.DeletePreservesConsistency | app/actions/appointment/delete-appointment.ts:66-87 | Removing an appointment keeps the store consistent |
| AppointmentRemoval.CancelNotesWithoutReason | app/actions/appointment/delete-appointment.ts:182-184 | Without a reason, or with an empty one, the notes are unchanged |
| AppointmentRemoval.CancelNotesAppends | app/actions/appointment/delete-appointment.ts:182-184 | With previous notes and a reason, the reason is appended after a new line and the `[CANCELADA]:` marker |
| AppointmentRemoval.CancelNotesOnEmpty | app/actions/appointment/delete-appointment.ts:182-184 | Without previous notes, the trim removes the leading new line |
| AppointmentRemoval.CancelOutcome | app/actions/appointment/delete-appointment.ts:164-192 | Completed is refused, cancelled is refused, and both change nothing. Pending, confirmed and no_show become cancelled. Only that appointment's status and notes are written; every other row, `nextId` and the other tables stay as they were |
| AppointmentRemoval.CancelTwiceRefused | app/actions/appointment/delete-appointment.ts:173-179 | A second cancellation of the same appointment is refused and changes nothing |
| AppointmentRemoval.CancelPreservesConsistency | app/actions/appointment/delete-appointment.ts:186-192 | A cancelled appointment no longer blocks its slot, so cancelling keeps the store consistent |
| AppointmentRemoval.DeleteAppointment | app/actions/appointment/delete-appointment.ts:50-87 | The delete action computes the delete function on the store |
| AppointmentRemoval.CancelAppointment | app/actions/appointment/delete-appointment.ts:135-192 | The cancel action computes the cancel function on the store |
| AppointmentsTableUi.StatusActions | app/components/staff/appointments/MyAppointmentsTable.tsx:60-69 | Steps are offered exactly for pending and confirmed. No step leads to pending or to the current status, every step is a valid status, and none is repeated |
| AppointmentsTableUi.ActionsOnlyMoveForward | app/components/staff/appointments/MyAppointmentsTable.tsx:60-69 | A status offers steps exactly when it is blocking (pending or confirmed), and none of them goes back to pending |
| AppointmentsTableUi.EditButtonAndActions | app/components/staff/appointments/MyAppointmentsTable.tsx:198 | no_show keeps its edit button although it offers no step. Completed and cancelled have neither |
| AppointmentsTableUi.OverdueIsActionable | app/components/staff/appointments/MyAppointmentsTable.tsx:90-110 | An appointment with the "Vencida" badge (pending, date before now) can be edited and offers confirm and cancel |
| AppointmentModalUi.CanEditMatchesEditButton | app/components/staff/appointments/MyAppointmentModal.tsx:109 | `canEdit` is false exactly for completed and cancelled, and agrees with the list's edit button |
| AppointmentModalUi.SaveOrWarning | app/components/staff/appointments/MyAppointmentModal.tsx:266-291 | In edit mode exactly one of the save button and the read-only warning shows; in view mode neither does |
| AppointmentModalUi.SubmitCheckIsMinuteCheck | app/components/staff/appointments/MyAppointmentModal.tsx:89-92 | For zero-padded times, the string check `endTime <= startTime` blocks exactly the requests whose end minute is not after the start minute |
| AppointmentModalUi.PayloadContents | app/components/staff/appointments/MyAppointmentModal.tsx:95-103 | The payload names each field once. It always carries the appointment's own id and patient. Type, notes and room are present exactly when non-empty |
| AppointmentModalUi.HandleSubmit | app/components/staff/appointments/MyAppointmentModal.tsx:86-103 | The submit is refused exactly when blocked; otherwise the successive appends build exactly the payload |
| Pagination.ValidatePaging | app/actions/appointment/get-paginated-appointment.ts:7-9 | page and pageSize pass exactly when page is positive and pageSize is in 1..100, after a missing or zero value becomes 1 or 10 |
| Pagination.Skip | app/actions/appointment/get-paginated-appointment.ts:129 | `skip + pageSize == page * pageSize`, so page p starts after the first p-1 pages |
| Pagination.TotalPages | app/actions/appointment/get-paginated-appointment.ts:209 | `totalPages` is the fewest pages that hold all items (the ceiling of the quotient) |
| Pagination.Window | app/actions/appointment/get-paginated-appointment.ts:169-178 | The page holds at most pageSize items: exactly the matched items from `skip` on, as many as remain |
| Pagination.HasNextIffMoreItems | app/actions/appointment/get-paginated-appointment.ts:209-211 | `hasNextPage` (page < totalPages) holds exactly when items remain after this page |
| Pagination.PageNonEmptyIffInRange | app/actions/appointment/get-paginated-appointment.ts:209-211 | Pages 1..totalPages are non-empty and later pages are empty |
| Pagination.ItemOnItsPage | app/actions/appointment/get-paginated-appointment.ts:129 | Item i appears on page i/size+1 at position i%size |
| Pagination.MatchedMeaning | app/actions/appointment/get-paginated-appointment.ts:169-211 | The rows the `where` keeps are exactly the kept stored rows, each once, in the database order, and there are as many as there are kept ids (what `count` returns) |
| Pagination.PageOfUnique | app/actions/appointment/get-paginated-appointment.ts:169-211 | At most one page fits `PageOf` for given rows, order, filter and paging, so `PageOf` determines the page |
| Pagination.KeptRowListed | app/actions/appointment/get-paginated-appointment.ts:169-211 | Every stored row the filter keeps is listed: the kept row of rank i is at position i%size of page i/size+1 |
| Pagination.ListingMeaning | app/actions/appointment/get-paginated-appointment.ts:169-211 | The page is the window at `skip` of the stored rows the filter keeps, in the order the database returns them (`PageOf`). So every listed row is a kept stored row, and there are at most pageSize of them. totalItems counts every kept stored row. The flags are `page*pageSize < total` and `page > 1` |
| Pagination.SortOrderNames | app/actions/appointment/get-paginated-appointment.ts:35-38 | The sort order accepts exactly "asc", "desc", nothing or "" (the default) |
| AppointmentListing.Validate | app/actions/appointment/get-paginated-appointment.ts:7-38 | The parameters pass exactly when paging, the ids and the status are valid and sortBy is appointmentDate, startTime or status. The default is appointmentDate ascending |
| AppointmentListing.BuildWhere | app/actions/appointment/get-paginated-appointment.ts:143-166 | The `where` keeps exactly the appointments equal on each supplied patient, staff and status, with date >= dateFrom and date <= dateTo, each bound applied on its own |
| AppointmentListing.ListMeaning | app/actions/appointment/get-paginated-appointment.ts:169-211 | With accepted parameters the page is the requested window of the stored appointments that pass the filters, in the order the database returns them (`PageOf`). It holds at most pageSize of them; each one is stored and selected; totalItems counts all of them |
| AppointmentListing.GetPaginatedAppointments | app/actions/appointment/get-paginated-appointment.ts:91-211 | The action, building its `where` step by step, returns the listing function's result |
| ScheduleListing.Validate | app/actions/schedule/get-paginated-schedule.ts:7-14 | The parameters pass exactly when paging and the ids are valid and a weekday, if given, is in 0..6; weekday 0 is kept as a filter |
| ScheduleListing.BuildWhere | app/actions/schedule/get-paginated-schedule.ts:114-124 | The `where` keeps exactly the windows matching each supplied staff and weekday. availableOnly=true keeps available windows only; false applies no filter |
| ScheduleListing.ListMeaning | app/actions/schedule/get-paginated-schedule.ts:103-163 | With accepted parameters the page is the requested window of the stored windows that pass the filters, in the order the database returns them (`PageOf`). It holds at most pageSize of them; each one is stored and selected; totalItems counts all of them |
| ScheduleListing.SundayIsAFilter | app/actions/schedule/get-paginated-schedule.ts:86 | Asking for weekday 0 lists Sunday windows only |
| ScheduleListing.GetPaginatedSchedules | app/actions/schedule/get-paginated-schedule.ts:71-163 | The action returns the listing function's result |
| ScheduleListing.DayNameMeaning | app/actions/schedule/get-paginated-schedule.ts:53-64 | "Desconocido" is given exactly outside 0..6; the names of 0..6 are distinct, from Domingo to Sábado |
| ScheduleListing.GroupByDayShape | app/actions/schedule/get-paginated-schedule.ts:303-315 | Groups come in strictly ascending weekday order, each named by `getDayName`, each holding exactly the rows of its weekday, and none empty |
| ScheduleListing.GroupRowsBelong | app/actions/schedule/get-paginated-schedule.ts:303-315 | Every grouped window is one of the query's rows and has its group's weekday |
| ScheduleListing.GroupHoldsRow | app/actions/schedule/get-paginated-schedule.ts:303-315 | Every row with a weekday in 0..6 is in the group of its weekday |
| ScheduleListing.SchedulesByStaffMeaning | app/actions/schedule/get-paginated-schedule.ts:249-315 | The lookup fails exactly for an unknown staff member. Otherwise the groups hold that member's (available) windows, each in the group of its weekday |
| ScheduleListing.GetSchedulesByStaff | app/actions/schedule/get-paginated-schedule.ts:249-315 | The action returns the grouping function's result |
| StaffListing.Validate | app/actions/staff/get-paginated-staff.ts:7-16 | The parameters pass exactly when paging, the room id and the sort names are valid. A zero room id applies no filter. The default is lastName ascending |
| StaffListing.AlternativesMeaning | app/actions/staff/get-paginated-staff.ts:124-131 | The OR of `contains` conditions holds exactly when the first name, last name, e-mail or phone contains the text, ignoring case |
| StaffListing.BuildWhere | app/actions/staff/get-paginated-staff.ts:114-131 | The `where` keeps exactly the staff the listing means: active if asked, in the given room, and matching a non-blank search |
| StaffListing.ListMeaning | app/actions/staff/get-paginated-staff.ts:99-176 | With accepted parameters the page is the requested window of the stored staff members the listing selects, in the order the database returns them (`PageOf`). It holds at most pageSize of them; each one is stored and selected; totalItems counts all of them |
| StaffListing.GetPaginatedStaff | app/actions/staff/get-paginated-staff.ts:67-176 | The action returns the listing function's result |
| StaffListing.SearchFormActiveOnly | app/actions/staff/get-paginated-staff.ts:236 | Only the exact form value "true" restricts the listing to active members |
| PatientListing.Validate | app/actions/patient/get-paginated-patient.ts:7-16 | The parameters pass exactly when paging, the psychologist id and the sort names are valid. The default is registeredDate descending |
| PatientListing.AlternativesMeaning | app/actions/patient/get-paginated-patient.ts:116-123 | The OR holds exactly when the first name, last name, control number or e-mail contains the text, ignoring case |
| PatientListing.BuildWhere | app/actions/patient/get-paginated-patient.ts:106-123 | The `where` keeps exactly the patients the listing means: active if asked, of the supplied psychologist, and matching a non-blank search |
| PatientListing.ListMeaning | app/actions/patient/get-paginated-patient.ts:91-159 | With accepted parameters the page is the requested window of the stored patients the listing selects, in the order the database returns them (`PageOf`). It holds at most pageSize of them; each one is stored and selected; totalItems counts all of them |
| PatientListing.GetPaginatedPatients | app/actions/patient/get-paginated-patient.ts:59-159 | The action returns the listing function's result |
| PatientListing.SearchFormActiveOnly | app/actions/patient/get-paginated-patient.ts:209-235 | Only the exact form value "true" restricts the listing to active patients |
| RoomListing.Validate | app/actions/consultation-room/get-paginated-consultation-room.ts:7-16 | The parameters pass exactly when paging and the sort names are valid. The default is code ascending |
| RoomListing.AlternativesMeaning | app/actions/consultation-room/get-paginated-consultation-room.ts:89-95 | The OR holds exactly when the code, name or location contains the text, ignoring case |
| RoomListing.BuildWhere | app/actions/consultation-room/get-paginated-consultation-room.ts:84-95 | The `where` keeps exactly the rooms the listing means |
| RoomListing.ListMeaning | app/actions/consultation-room/get-paginated-consultation-room.ts:71-123 | With accepted parameters the page is the requested window of the stored rooms the listing selects, in the order the database returns them (`PageOf`). It holds at most pageSize of them; each one is stored and selected; totalItems counts all of them |
| RoomListing.GetPaginatedConsultationRooms | app/actions/consultation-room/get-paginated-consultation-room.ts:48-123 | The action returns the listing function's result |
| RoomListing.SearchFormActiveOnly | app/actions/consultation-room/get-paginated-consultation-room.ts:178 | Only the exact form value "true" restricts the listing to active rooms |
| AdminListing.Validate | app/actions/admin/get-paginated-admin.ts:7-16 | The parameters pass exactly when paging and the sort names are valid. The default is createdAt descending |
| AdminListing.AlternativesMeaning | app/actions/admin/get-paginated-admin.ts:90-96 | The OR holds exactly when the e-mail, first name or last name contains the text, ignoring case |
| AdminListing.BuildWhere | app/actions/admin/get-paginated-admin.ts:85-96 | The `where` keeps exactly the administrators the listing means |
| AdminListing.ListMeaning | app/actions/admin/get-paginated-admin.ts:72-129 | With accepted parameters the page is the requested window of the stored administrators the listing selects, in the order the database returns them (`PageOf`). It holds at most pageSize of them; each one is stored and selected; totalItems counts all of them |
| AdminListing.GetPaginatedAdmins | app/actions/admin/get-paginated-admin.ts:49-129 | The action returns the listing function's result |
| AdminListing.SearchFormActiveOnly | app/actions/admin/get-paginated-admin.ts:175 | Only the exact form value "true" restricts the listing to active administrators |
| StaffRemoval.RelationshipsMeanReferences | app/actions/staff/delete-staff.ts:72-75 | The relation counts are non-zero exactly when some window, appointment or patient refers to the staff member |
| StaffRemoval.DeleteOutcome | app/actions/staff/delete-staff.ts:55-130 | Fails exactly for a bad or unknown id, or a forced delete of a referenced member, and then nothing changes. Referenced and not forced: only `active` is cleared and the counts are reported. Not referenced: removed, whatever the flag |
| StaffRemoval.DeletePreservesConsistency | app/actions/staff/delete-staff.ts:77-130 | A removed staff member is referred to by nothing, so every outcome keeps the store consistent |
| StaffRemoval.DeleteStaff | app/actions/staff/delete-staff.ts:23-130 | The action computes the delete function on the store |
| PatientRemoval.CountMeansReferences | app/actions/patient/delete-patient.ts:66 | The appointment count is non-zero exactly when some appointment refers to the patient |
| PatientRemoval.DeleteOutcome | app/actions/patient/delete-patient.ts:51-117 | Fails for a bad or unknown id or a forced delete of a patient with appointments, and then nothing changes. With appointments and not forced, the patient is deactivated. Without appointments, the patient is removed |
| PatientRemoval.DeletePreservesConsistency | app/actions/patient/delete-patient.ts:68-117 | Every outcome keeps the store consistent |
| PatientRemoval.DeletePatient | app/actions/patient/delete-patient.ts:21-117 | The action computes the delete function on the store |
| AdminRemoval.CountMeansReferences | app/actions/admin/delete-admin.ts:63 | The created-staff count is non-zero exactly when some staff member names the administrator as creator |
| AdminRemoval.DeleteOutcome | app/actions/admin/delete-admin.ts:48-107 | Fails for a bad or unknown id or a forced delete of an administrator who created staff, and then nothing changes. With created staff and not forced, the administrator is deactivated. Otherwise removed |
| AdminRemoval.DeletePreservesConsistency | app/actions/admin/delete-admin.ts:65-107 | Every outcome keeps the store consistent |
| AdminRemoval.DeleteAdmin | app/actions/admin/delete-admin.ts:18-107 | The action computes the delete function on the store |
| RoomRemoval.MessageListsNonZeroCounts | app/actions/consultation-room/delete-consultation-room.ts:60-69 | The message names exactly the non-zero staff and appointment counts, joined by " y " |
| RoomRemoval.CountsMeanReferences | app/actions/consultation-room/delete-consultation-room.ts:50-58 | The counts are non-zero exactly when some staff member or appointment uses the room |
| RoomRemoval.DeleteOutcome | app/actions/consultation-room/delete-consultation-room.ts:22-80 | Fails only for a bad or unknown id, and then nothing changes. A room in use is deactivated and kept; a room not in use is removed; a found room is never refused |
| RoomRemoval.DeletePreservesConsistency | app/actions/consultation-room/delete-consultation-room.ts:50-80 | Every outcome keeps the store consistent |
| RoomRemoval.DeleteConsultationRoom | app/actions/consultation-room/delete-consultation-room.ts:17-80 | The action, pushing onto `relations` step by step, computes the delete function on the store |
| ScheduleRemoval.DeleteOutcome | app/actions/schedule/delete-schedule.ts:7-65 | Fails exactly for a bad or unknown id, and then nothing changes. Otherwise it removes exactly that window, available or not: every other row, `nextId` and the other tables stay as they were |
| ScheduleRemoval.DeletePreservesConsistency | app/actions/schedule/delete-schedule.ts:59-65 | Removing a window keeps the store consistent |
| ScheduleRemoval.DeleteSchedule | app/actions/schedule/delete-schedule.ts:16-65 | The action computes the delete function on the store |
| AccountFields.NormalizedEmail | app/actions/staff/create-update-staff.ts:20-25 | The stored e-mail is the lower-cased, trimmed text, and never longer than the raw one |
| AccountFields.NormalizedHasNoCapitals | app/actions/admin/create-update-admin.ts:20-25 | A normalized e-mail has no upper-case ASCII letter |
| AccountFields.NormalizationIdempotent | app/actions/patient/create-update-patient.ts:9-14 | Normalizing an e-mail twice gives the same as normalizing it once |
| AccountFields.NormalizationIgnoresCase | app/actions/patient/create-update-patient.ts:9-14 | Texts that differ only in case normalize to the same e-mail |
| StaffSave.Validate | app/actions/staff/create-update-staff.ts:8-60 | Passes exactly when names are 2..100, the e-mail is valid and at most 150, a password is 6..100, a phone is at most 20, and the ids are positive. Names are trimmed, the e-mail normalized, and `active` defaults to true |
| StaffSave.ApplyWrites | app/actions/staff/create-update-staff.ts:187-215 | A refused request changes nothing. A saved one changes only the staff table: the existing row on update, a fresh id otherwise |
| StaffSave.SavedRecord | app/actions/staff/create-update-staff.ts:179-215 | The stored record has the trimmed names and normalized e-mail. The hash changes only when a password is given, and `hireDate` only when one is given |
| StaffSave.ApplySucceedsIff | app/actions/staff/create-update-staff.ts:96-215 | After the schema, the save goes through exactly when: an update without password names an existing member; no other member holds the e-mail; a given room exists and is active; a given creator exists; a created row comes with a password |
| StaffSave.UpdateWithPasswordOfMissingIdCreates | app/actions/staff/create-update-staff.ts:99-111 | An update with a password skips the existence check, so an unknown id creates a new member under the next autoincrement id |
| StaffSave.EmailOfAnotherBlocks | app/actions/staff/create-update-staff.ts:114-129 | An e-mail held by another member refuses the save |
| StaffSave.NamesCheckedBeforeTrim | app/actions/staff/create-update-staff.ts:10-19 | Lengths are checked before the trim: replacing the names of an accepted input with any names of 2 to 100 characters keeps it accepted, stores their trims, and stores blank names empty |
| StaffSave.SavePreservesConsistency | app/actions/staff/create-update-staff.ts:114-215 | Every save keeps staff e-mails unique and references resolved |
| StaffSave.CreateOrUpdateStaff | app/actions/staff/create-update-staff.ts:80-215 | The action's result and new store are those of the save function, and the store stays valid |
| StaffSave.Write | app/actions/staff/create-update-staff.ts:99-215 | From validated input, the lookups and the upsert compute the apply function |
| AdminSave.Validate | app/actions/admin/create-update-admin.ts:8-32 | Passes exactly when names are 2..100, the e-mail is valid and at most 150, and a password is 6..100. Names are trimmed, the e-mail normalized, and `active` defaults to true |
| AdminSave.ApplyWrites | app/actions/admin/create-update-admin.ts:107-130 | A refused request changes nothing. A saved one changes only the admin table: the existing row on update, a fresh id otherwise |
| AdminSave.SavedRecord | app/actions/admin/create-update-admin.ts:99-130 | The stored record has the trimmed names and normalized e-mail, and the hash changes only when a password is given |
| AdminSave.ApplySucceedsIff | app/actions/admin/create-update-admin.ts:63-130 | After the schema, the save goes through exactly when an update without password names an existing administrator, no other holds the e-mail, and a created row comes with a password |
| AdminSave.UpdateWithPasswordOfMissingIdCreates | app/actions/admin/create-update-admin.ts:66-78 | An update with a password of an unknown id creates a new administrator under the next autoincrement id |
| AdminSave.CreateNeedsPassword | app/actions/admin/create-update-admin.ts:99-130 | A create without a password never stores a row |
| AdminSave.SavePreservesConsistency | app/actions/admin/create-update-admin.ts:81-130 | Every save keeps administrator e-mails unique |
| AdminSave.CreateOrUpdateAdmin | app/actions/admin/create-update-admin.ts:48-130 | The action's result and new store are those of the save function, and the store stays valid |
| AdminSave.Write | app/actions/admin/create-update-admin.ts:66-130 | From validated input, the lookups and the upsert compute the apply function |
| PatientSave.Validate | app/actions/patient/create-update-patient.ts:7-27 | Passes exactly when the e-mail is valid and at most 150 and a psychologist id is positive. The e-mail is normalized and `active` defaults to true |
| PatientSave.ApplyWrites | app/actions/patient/create-update-patient.ts:123-142 | A refused request changes nothing. A saved one changes only the patient table: the existing row on update, a fresh id on create |
| PatientSave.SavedRecord | app/actions/patient/create-update-patient.ts:123-142 | The stored record has the normalized e-mail and the given psychologist (or none). An update keeps the names, control number and registration date unless a date is given |
| PatientSave.ApplySucceedsIff | app/actions/patient/create-update-patient.ts:58-142 | After the schema, the save goes through exactly when an update names an existing patient, no other patient holds the e-mail, and a given psychologist exists and is active |
| PatientSave.OwnEmailAccepted | app/actions/patient/create-update-patient.ts:76-91 | Re-saving a patient with its own stored e-mail never collides with itself |
| PatientSave.SavePreservesConsistency | app/actions/patient/create-update-patient.ts:76-142 | Every save keeps patient e-mails unique and psychologist references resolved |
| PatientSave.CreateOrUpdatePatient | app/actions/patient/create-update-patient.ts:43-142 | The action's result and new store are those of the save function, and the store stays valid |
| PatientSave.Write | app/actions/patient/create-update-patient.ts:61-142 | From validated input, the lookups and the upsert compute the apply function |
| RoomSave.FromForm | app/actions/consultation-room/create-or-update-consultation-room.ts:57-64 | code, name and location are the form's values, absent when the form lacks them. The id is present exactly when the form has a non-empty one, and is then `Number` of it. A missing capacity becomes 1, and `active` is true exactly for the form value "true" |
| RoomSave.Validate | app/actions/consultation-room/create-or-update-consultation-room.ts:7-31 | Passes exactly when the code is 1..20 characters of A-Z, 0-9 and '-', the name is 1..100, the location is 1..200 and the capacity is positive |
| RoomSave.AcceptedCodeShape | app/actions/consultation-room/create-or-update-consultation-room.ts:9-16 | An accepted code has 1 to 20 characters, each an upper-case ASCII letter, a digit or a hyphen |
| RoomSave.LowerCaseCodeRefused | app/actions/consultation-room/create-or-update-consultation-room.ts:9-16 | A code with a lower-case letter is refused |
| RoomSave.FormDefaults | app/actions/consultation-room/create-or-update-consultation-room.ts:57-64 | A form without a capacity saves capacity 1, and `active` is set exactly for "true" |
| RoomSave.ApplyWrites | app/actions/consultation-room/create-or-update-consultation-room.ts:110-126 | A refused request changes nothing. A saved one writes all five fields, under the id when it exists or a fresh one otherwise |
| RoomSave.ApplySucceedsIff | app/actions/consultation-room/create-or-update-consultation-room.ts:81-107 | After the schema, the save goes through exactly when no other room holds the code |
| RoomSave.UpdateOfMissingIdCreates | app/actions/consultation-room/create-or-update-consultation-room.ts:92-126 | An update of an unknown id creates a room under a fresh id |
| RoomSave.SavePreservesConsistency | app/actions/consultation-room/create-or-update-consultation-room.ts:81-126 | Every save keeps room codes unique |
| RoomSave.CreateOrUpdateConsultationRoom | app/actions/consultation-room/create-or-update-consultation-room.ts:52-126 | The action's result and new store are those of the save function, and the store stays valid |
| Store.Upsert | app/actions/appointment/create-update-appointment.ts:313-318 | Prisma's upsert by id: the row is written under the key when it exists, otherwise under a fresh id, and no other row changes |
| Store.EmptyDbConsistent | app/actions/appointment/create-update-appointment.ts:211-251 | The empty store satisfies every invariant, so the invariants are satisfiable |

## Left out

- Database I/O: Prisma calls are replaced by an in-memory store of maps. SQL, transactions and the `include` of related rows in results are not modelled.
- Concurrency: the model is single-threaded. The race between a conflict `findFirst` and the following `upsert` is not modelled.
- Error mapping: turning Prisma exceptions into messages by substring, and the console logging, are left out. The model's error values stand for the messages.
- JavaScript dates: timezones, `new Date(...)` parsing (including invalid dates) and `toISOString` are left out. Dates are day numbers. `getDay()` is the weekday of that number in UTC.
- Hashing: bcrypt is not modelled. Its result enters as the parameter `hash`, because a salted hash is not a function of the password.
- E-mail syntax: zod's `.email()` is the predicate parameter `isEmail`.
- EmailsNotBlank: the saves assume that `isEmail` accepts no text that normalizes to the empty string. Without it, the source's check `!isUpdate || email` could skip the uniqueness lookup.
- Number parsing: `Number()` on form fields, and with it NaN and fractions, is the parameter `toNumber` into `int`.
- String lengths: zod counts UTF-16 code units; the model counts characters.
- Case folding: lower-casing and case-insensitive `contains` fold ASCII letters only. SQL `LIKE` collation is not modelled.
- Sorting: listings take rows in the order the database returns them (`order`). Only the validation and defaults of sortBy and sortOrder are modelled.
- PatientSave.Created: the schema strips names and control number, so a created patient has them empty. The database schema that might reject that is not part of this model.
- The `searchAppointments` and `searchSchedules` form wrappers, and `getTodayAppointments` and the other upcoming-appointment wrappers, are thin calls into the modelled listings. They are not modelled.
- Authentication: JWT handling in app/actions/auth/auth.ts and db/generate-password-hash.js are crypto and environment plumbing.
- React pages, forms and dashboards: only the two staff appointment components are modelled. The client-side time checks elsewhere repeat the server schema.
- MyAppointmentsPageClient.tsx: its date-range filtering and sorting are UI state driven by the local clock.

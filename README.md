# Scheduling back end: appointment engine, catalog services and helpers

This project models the core of a NestJS/Prisma back end for booking appointments at service
companies (barbershops, salons). It covers:

- Companies and their weekly working hours.
- The service catalog: soft-deleted, with a price floor and per-company unique names.
- Clients, identified by phone within a company.
- Users.
- The appointment engine. Bookings are made by a client or by an admin. Admin bookings may carry a
  discount. Companies can block time ranges. Listings keep regular appointments and blocks apart.
  Status moves only from PENDING.

It also models the pure helpers the services rely on:

- Time-of-day parsing and validation.
- Summing a numeric property.
- App version comparison.
- Empty-field stripping.
- The ISO date-time validator.
- The search for the first validation message.
- The role guard.

## How the model is built

- **Tables.** Each database table is a class with a `rows: seq<…>` field and a `nextId` counter
  (`Tables.*Table`). The tables are grouped in a `Database`.
- **Row order.** Prisma's `findFirst` without `orderBy` is modelled as "the first row in table
  order".
- **Services.** A service (`ClientsService`, `ServiceService`, `UserService`, `CompanyService`,
  `AppointmentService`) is a class holding the database. Its methods modify only the tables the
  source writes. Each method's contract ties the new state to a pure function of the old state
  (`Upsert`, `Book`, `WithBlockClient`, `ApplyEntries`, `Transition`, …), and the lemmas are about
  those functions.
- **Errors.** An HTTP exception is a `Fail` of the `Common.Error` enumeration.
- **Data types.**
  - JavaScript numbers that matter are `real` (prices, day of week) or `int` (minutes, ids,
    timestamps in milliseconds).
  - JavaScript values read by the generic helpers are the `JsValues.JsValue` datatype.
- **Booking request.** It is a tagged variant: `ClientBooking` or `AdminBooking`. So the source's
  "wrong DTO for this user type" branch cannot arise.

Behaviour modelled as written, which a reader may find surprising:

- **Block conflicts** (`checkForBlockConflicts`): only the first PENDING or CONFIRMED row of the
  company that starts before the block's end is inspected. A later row that overlaps the block is
  missed (`AppointmentRules.LaterOverlapMissed`).
- **Bookings** are never checked against the schedule (`AppointmentService.BookingIgnoresSchedule`).
- **The client upsert** of a client booking runs outside the transaction. It stays when pricing
  then fails.
- **Working hours.** `updateCompanyWorkingHours` writes through a handle captured outside its
  transaction. An invalid entry leaves the earlier writes in place.
- **Block sentinels.** The sentinel client "Bloqueio" and the sentinel service "__BLOCK__" persist
  even when the block itself is refused.
- **Service update** does not check names, so two services of a company can end up with the same
  name (`ServiceCatalog.UpdateMayDuplicateNames`).
- **Role guard.** It matches roles by substring ("SUPERADMIN" passes a guard for "ADMIN";
  `RolesGuard.SubstringMatch`).
- **Version comparison.** A version part that is not a number counts as 0
  (`AppVersion.NonNumericExample`).

## Model

| member | source | states |
|---|---|---|
| TimeHelper.ParseTimeToMinutes | src/common/helpers/time.helper.ts:3-24 | succeeds iff the text is a 24-hour `HH:mm`; null and empty input give the "required" error, any other mismatch the format error; the value lies in 0..1439 |
| TimeHelper.MatchesHHmm | src/common/helpers/time.helper.ts:7-10 | a match is five characters with the hour digits worth 0-23 and the minute digits worth 0-59, so the range checks that follow never fire; MatchesHHmmIffFormatted gives the exact language |
| TimeHelper.MatchesHHmmIffFormatted | src/common/helpers/time.helper.ts:7-10 | the accepted pattern is exactly the set of zero-padded `HH:mm` texts for hours 0-23 and minutes 0-59 |
| TimeHelper.ParseFormatted | src/common/helpers/time.helper.ts:12-23 | parsing the `HH:mm` text of h and m gives h*60+m (the round trip) |
| TimeHelper.IsAfter | src/common/helpers/time.helper.ts:26-28 | true iff the start is not strictly before the end, so equal times count as "after" |
| TimeHelper.ValidateTimeRange | src/common/helpers/time.helper.ts:30-41 | succeeds iff both times are well-formed and the start is strictly earlier; equal times fail; a missing time gives its own error |
| TimeHelper.ValidateDayOfWeek | src/common/helpers/time.helper.ts:43-47 | succeeds iff the number is one of 0..6 (fractions rejected) |
| TimeHelper.IsValidTimeFormat | src/common/helpers/time.helper.ts:49-53 | true iff parsing succeeds |
| TimeHelper.IsTimeWithinRange | src/common/helpers/time.helper.ts:55-65 | false on any malformed time; otherwise true iff start <= time <= end in minutes |
| TimeHelper.WithinRangeInclusive | src/common/helpers/time.helper.ts:55-65 | both endpoints of a range are inside it |
| SumTotal.Fold | src/common/helpers/sumTotal.helper.ts:10-16 | the reduce fails only with the not-a-number error, and succeeds only when every object has a number under the property; FoldIsTotal gives the value |
| SumTotal.FoldIsTotal | src/common/helpers/sumTotal.helper.ts:10-16 | the reduce succeeds iff every object's property is a number, and then returns the accumulator plus the arithmetic total |
| SumTotal.SumByProp | src/common/helpers/sumTotal.helper.ts:9-17 | empty array gives 0; success iff every property is numeric; the error otherwise; the value is the reference total |
| SumTotal.SumByPropSnoc | src/common/helpers/sumTotal.helper.ts:9-17 | appending an object with a numeric property adds that number to the sum |
| AppVersion.Split | src/app.service.ts:63-64 | at least one part, no part contains the separator, and joining the parts gives the text back |
| AppVersion.PartValue | src/app.service.ts:63-64 | a part that is not all digits is worth 0 (`Number(part)` is NaN, and `NaN \|\| 0` is 0) |
| AppVersion.CmpFrom | src/app.service.ts:68-74 | the loop from an index on yields only 1, -1 or 0; CmpFromMeaning says which |
| AppVersion.Compare | src/app.service.ts:62-77 | compareVersions yields 1, -1 or 0, and 0 exactly when every part (a missing part counts as 0) has the same numeric value |
| AppVersion.CmpFromMeaning | src/app.service.ts:68-74 | the comparison is 0 iff all parts agree (missing parts count as 0); otherwise its sign is that of the first differing part |
| AppVersion.CompareVersions | src/app.service.ts:62-77 | the index loop with early returns equals the recursive comparison and yields -1, 0 or 1 |
| AppVersion.CmpFromAntisymmetric | src/app.service.ts:68-74 | swapping the operands negates the comparison from any index |
| AppVersion.CompareReflexive | src/app.service.ts:62-77 | every version compares equal to itself |
| AppVersion.CompareAntisymmetric | src/app.service.ts:62-77 | compare(a, b) == -compare(b, a) |
| AppVersion.TrailingZeros | src/app.service.ts:68-74 | appending parts worth 0 does not change the comparison |
| AppVersion.TrailingZeroExample | src/app.service.ts:62-77 | "1.0" equals "1.0.0" |
| AppVersion.NumericExample | src/app.service.ts:62-77 | "1.10" is newer than "1.9" (numeric, not textual) |
| AppVersion.NonNumericExample | src/app.service.ts:69-70 | "1.x" equals "1" |
| AppVersion.GetVersionMessage | src/app.service.ts:79-89 | OUTDATED iff forced or invalid; UPDATE_AVAILABLE iff valid, not forced and not latest; UP_TO_DATE otherwise |
| AppVersion.ValidateVersion | src/app.service.ts:14-51 | empty version fails; with no configuration everything is valid and latest; otherwise valid iff >= minimum, latest iff >= latest, forced iff the flag is set and the version is invalid, optional iff valid and not latest; never both forced and optional |
| AppVersion.ValidateVersionMessage | src/app.service.ts:36-49 | the message of a configured check is GetVersionMessage of its flags |
| EmptyFields.KeepEntries | src/common/helpers/emptyFields.helper.ts:6-15 | every entry the reduce keeps passes the test (not null, not undefined, not a blank string); KeepEntriesMembers and KeepEntriesLength give the rest |
| EmptyFields.KeepEntriesMembers | src/common/helpers/emptyFields.helper.ts:6-15 | the reduce keeps exactly the entries whose value is not null, not undefined and not a blank string |
| EmptyFields.KeepEntriesOfKept | src/common/helpers/emptyFields.helper.ts:6-15 | entries that all pass are kept unchanged and in order |
| EmptyFields.RemoveEmptyFields | src/common/helpers/emptyFields.helper.ts:1-16 | a falsy or non-object input gives `{}`; otherwise the result holds exactly the kept entries and is no longer than the input |
| EmptyFields.KeepEntriesLength | src/common/helpers/emptyFields.helper.ts:6-15 | the result never has more entries than the input |
| EmptyFields.KeepsFalsyNonStrings | src/common/helpers/emptyFields.helper.ts:7-12 | 0 and false are kept; a whitespace-only string is dropped |
| EmptyFields.RemoveEmptyFieldsIdempotent | src/common/helpers/emptyFields.helper.ts:1-16 | stripping twice is the same as stripping once |
| EmptyFields.IsArrayEmpty | src/common/helpers/emptyFields.helper.ts:18-20 | true iff the array is missing or no object in it has a keepable entry |
| DateTimeValidator.MatchesDateTime | src/common/decorators/ClassValidator.decorator.ts:13 | a match is 19, 20, 23, 24, 25 or 29 characters long: the body, then an optional fraction of 4 and an optional offset of 1 or 6; MatchesIffSplits gives the exact language |
| DateTimeValidator.Validate | src/common/decorators/ClassValidator.decorator.ts:11-15 | true only for strings, and exactly for those of the shape `YYYY-MM-DDTHH:mm:ss`, an optional `.sss` and an optional `Z` or `±HH:mm` |
| DateTimeValidator.MatchesIffSplits | src/common/decorators/ClassValidator.decorator.ts:13 | the left-to-right matcher agrees with the split into body, fraction and offset |
| DateTimeValidator.RejectsNonStrings | src/common/decorators/ClassValidator.decorator.ts:14 | numbers, booleans, null and undefined are rejected |
| DateTimeValidator.ShapeNotRange | src/common/decorators/ClassValidator.decorator.ts:13 | only the shape is checked (month 13 passes); a space separator, a two-digit fraction or trailing text fail |
| ValidationErrors.FindFirstConstraint | src/main.ts:40-53 | any message returned is a constraint message of some node of the tree, and with no constraint anywhere the result is undefined; DepthFirstOrder gives the order |
| ValidationErrors.SearchFindsAMessage | src/main.ts:40-53 | whatever the search returns is a message of the tree; with no messages it returns nothing |
| ValidationErrors.SearchShift | src/main.ts:46-51 | the search over the errors after the first one is the search over the rest |
| ValidationErrors.SearchReadsOnlyChildren | src/main.ts:46-51 | the loop over children does not depend on the parent's own constraints |
| ValidationErrors.DepthFirstOrder | src/main.ts:40-53 | an error's own first constraint wins over its children; otherwise a non-empty message from its children wins over later siblings |
| RolesGuard.Includes | src/common/guards/roles.guard.ts:16 | `includes` as an occurrence at some position: only a needle no longer than the text occurs, and the empty needle always occurs |
| RolesGuard.IncludesFrom | src/common/guards/roles.guard.ts:16 | true iff the needle occurs at some position from the given one on |
| RolesGuard.SomeRoleIncluded | src/common/guards/roles.guard.ts:16 | true iff some required role occurs inside the user's role |
| RolesGuard.CanActivate | src/common/guards/roles.guard.ts:10-17 | with no role metadata access is allowed; otherwise allowed iff there is a user role containing some required role |
| RolesGuard.DenialCases | src/common/guards/roles.guard.ts:16 | an empty role list, or a request with no role, is denied |
| RolesGuard.SubstringMatch | src/common/guards/roles.guard.ts:16 | "SUPERADMIN" passes an ADMIN guard; "CLIENT" does not |
| Digits.NatToString | src/modules/company/company.service.ts:456 | the decimal text of a counter is all digits and reads back as the counter |
| AppointmentRules.DurationTotal | src/modules/appointments/appointment.service.ts:663 | sumByProp over the services' duration is the sum of their durations |
| AppointmentRules.PriceTotal | src/modules/appointments/appointment.service.ts:664 | sumByProp over the services' price is the sum of their prices |
| AppointmentRules.Prepare | src/modules/appointments/appointment.service.ts:638-704 | no selected service fails first, then a count mismatch, then a discount above the subtotal, then a negative discount, each iff its condition; a full selection with the discount in [0, subtotal] succeeds; duration and subtotal are sums over the selected services; the discount applies to admin bookings with a non-CLIENT role only; total = subtotal - discount; status PENDING; a discount note iff the discount is positive |
| AppointmentRules.ClientBookingNoDiscount | src/modules/appointments/appointment.service.ts:667-670 | a client booking never has a discount or a note, and pays the subtotal |
| AppointmentRules.ToSetSize | src/modules/appointments/appointment.service.ts:647-661 | a list has as many distinct values as entries iff its entries are distinct |
| AppointmentRules.FilterKeepsIdsDistinct | src/modules/appointments/appointment.service.ts:647-653 | the services a query returns have distinct ids |
| AppointmentRules.SelectionMatchesRequest | src/modules/appointments/appointment.service.ts:647-661 | the count check passes iff the request is non-empty, has no repeated id, and every id names an active service of the company |
| AppointmentRules.BlockConflict | src/modules/appointments/appointment.service.ts:209-250 | a refusal names an active (PENDING or CONFIRMED) row of the company that ends after the block starts; ConflictMeansOverlap and LaterOverlapMissed give the rest |
| AppointmentRules.ConflictMeansOverlap | src/modules/appointments/appointment.service.ts:209-250 | a refused block always overlaps an active row of the company; a range overlapping no active row (touching endpoints included) is never refused |
| AppointmentRules.LaterOverlapMissed | src/modules/appointments/appointment.service.ts:210-249 | a range overlapping a later active row is accepted when an earlier, finished row is the first candidate |
| AppointmentRules.DifferenceInMinutes | src/modules/appointments/appointment.service.ts:171-173 | whole minutes between two instants, truncated toward zero |
| AppointmentRules.PositiveDuration | src/modules/appointments/appointment.service.ts:171-177 | a block is long enough iff the range covers at least one full minute |
| AppointmentRules.Transition | src/modules/appointments/appointment.service.ts:501-597 | another company's row is refused; a non-PENDING row is refused; otherwise only the status changes, to the target |
| AppointmentRules.OnlyPendingMoves | src/modules/appointments/appointment.service.ts:524-530 | a row that is not PENDING never moves: NotPending within its company, Unauthorized outside it |
| AppointmentRules.ListPending | src/modules/appointments/appointment.service.ts:283-312 | exactly the PENDING rows whose client is not the block sentinel, each as often as in the table |
| AppointmentRules.FindAllByCompany | src/modules/appointments/appointment.service.ts:314-355 | exactly the company's rows whose client is not the block sentinel, each as often as in the table |
| AppointmentRules.FindBlocksByCompany | src/modules/appointments/appointment.service.ts:419-452 | a permutation of the company's rows whose client is the sentinel (each as often as in the table), newest first |
| AppointmentRules.BlocksNewestFirst | src/modules/appointments/appointment.service.ts:437-439 | any two blocks in the listing are in non-increasing date order |
| AppointmentRules.IsBlock | src/modules/appointments/appointment.service.ts:423-430 | a row is a block only when a client with the row's clientId is named "Bloqueio" |
| AppointmentRules.IsRegular | src/modules/appointments/appointment.service.ts:290-295 | a row passes the `name: { not: 'Bloqueio' }` filter iff it has a client and is not a block |
| AppointmentRules.ListingsPartition | src/modules/appointments/appointment.service.ts:283-452 | a row with a client is in exactly one of the company listing and the block listing; a block is never listed as pending |
| AppointmentRules.FindAllByClient | src/modules/appointments/appointment.service.ts:706-741 | fails iff the client is not in the company; otherwise that client's rows in that company, each as often as in the table |
| AppointmentService.NewAppointment | src/modules/appointments/appointment.service.ts:82-84 | the created row holds every prepared field (date, client, company, prices, duration, status, notes) under the given id |
| AppointmentService.LinksFor | src/modules/appointments/appointment.service.ts:87-92 | one join row per requested id, in request order |
| AppointmentService.LinkedServices | src/modules/appointments/appointment.service.ts:87-92 | a service is linked to an appointment iff their join row exists |
| AppointmentService.DropLinks | src/modules/appointments/appointment.service.ts:624-626 | exactly the join rows of other appointments remain |
| AppointmentService.LinkedServicesFor | src/modules/appointments/appointment.service.ts:87-92 | the new rows link the appointment to exactly the requested ids, and no other appointment |
| AppointmentService.LinkedServicesDrop | src/modules/appointments/appointment.service.ts:624-626 | after the delete the appointment has no services and every other appointment keeps its own |
| AppointmentService.Book | src/modules/appointments/appointment.service.ts:80-94 | success iff preparing succeeds; a failure writes nothing; a success appends one PENDING row under the next id holding the summed durations, the summed prices and the requested discount (a note iff a discount), and one join row per requested service |
| AppointmentService.BookLinksRequestedServices | src/modules/appointments/appointment.service.ts:80-94 | after a booking the new appointment is linked to exactly the requested services, which are distinct and bookable; other appointments' links are unchanged |
| AppointmentService.BookingIgnoresSchedule | src/modules/appointments/appointment.service.ts:28-111 | whether a booking succeeds does not depend on the rows already in the schedule |
| AppointmentService.Rescheduled | src/modules/appointments/appointment.service.ts:611-622 | date, duration and prices come from the new data; id, client, company, status and notes are kept |
| AppointmentService.RelinkReplacesServices | src/modules/appointments/appointment.service.ts:624-632 | after the relink the appointment has exactly the new services and the others keep theirs |
| AppointmentService.BlockClient | src/modules/appointments/appointment.service.ts:138-147 | the created sentinel client is named "Bloqueio", blocked, of the given company, under the given id |
| AppointmentService.BlockService | src/modules/appointments/appointment.service.ts:157-168 | the created sentinel service is named "__BLOCK__", inactive, free, zero minutes long, not deleted, of the given company |
| AppointmentService.WithBlockClient | src/modules/appointments/appointment.service.ts:131-148 | the sentinel client of the company is found, or created (blocked) under the next id when there is none |
| AppointmentService.WithBlockService | src/modules/appointments/appointment.service.ts:151-169 | the sentinel service of the company is found, or created (inactive, free, zero minutes) when there is none |
| AppointmentService.SentinelsCreatedOnce | src/modules/appointments/appointment.service.ts:131-169 | a second find-or-create finds what the first one left: the sentinels are created once per company |
| AppointmentService.BlockRow | src/modules/appointments/appointment.service.ts:182-194 | a block is CONFIRMED, free, and spans the requested start and duration |
| AppointmentService.BlockOwner | src/modules/appointments/appointment.service.ts:423-430 | a row is a block iff its client is the sentinel, and regular otherwise |
| AppointmentService.BlockCoversRange | src/modules/appointments/appointment.service.ts:171-194 | a stored block is active, ends within the requested range, and overlaps every range that meets it |
| AppointmentService.AppointmentService.CreateAppointment | src/modules/appointments/appointment.service.ts:28-111 | admin: an unknown client fails; otherwise the booking for that client's company. Client: an unknown company fails; otherwise the client is upserted by phone (a stored email is kept when none is sent), then the booking |
| AppointmentService.AppointmentService.Store | src/modules/appointments/appointment.service.ts:80-94 | the writes are exactly those of Book, and the join rows stay below the id counter |
| AppointmentService.AppointmentService.UpdateAppointment | src/modules/appointments/appointment.service.ts:599-636 | an unknown id fails; a preparation error is returned with nothing written; otherwise the row is rescheduled and its join rows are replaced by the requested ones |
| AppointmentService.AppointmentService.CreateBlock | src/modules/appointments/appointment.service.ts:113-207 | an unknown company fails with nothing written; otherwise the sentinels are ensured; a range under a minute fails, then a conflict fails, and nothing else fails; otherwise a block row is appended and appears in the block listing |
| AppointmentService.AppointmentService.InsertBlock | src/modules/appointments/appointment.service.ts:171-194 | fails only on a range under a minute, then on a conflict; otherwise the block row under the next id |
| AppointmentService.AppointmentService.EnsureBlockClient | src/modules/appointments/appointment.service.ts:131-148 | the client table after WithBlockClient |
| AppointmentService.AppointmentService.EnsureBlockService | src/modules/appointments/appointment.service.ts:151-169 | the service table after WithBlockService |
| AppointmentService.AppointmentService.DeleteBlock | src/modules/appointments/appointment.service.ts:454-499 | unknown id, not a block and another company's block fail in that order, and nothing else fails; so a block of the caller's company is removed: exactly that row |
| AppointmentService.AppointmentService.DeleteAppointment | src/modules/appointments/appointment.service.ts:398-417 | an unknown id fails (P2025); otherwise exactly that row is removed, with no company check |
| AppointmentService.AppointmentService.MarkAs | src/modules/appointments/appointment.service.ts:501-597 | an unknown id fails; otherwise the outcome is Transition, and on success only that row changes |
| AppointmentService.AppointmentService.MarkAsCompleted | src/modules/appointments/appointment.service.ts:501-548 | Transition to COMPLETED on the row with that id |
| AppointmentService.AppointmentService.MarkAsCanceled | src/modules/appointments/appointment.service.ts:550-597 | Transition to CANCELLED on the row with that id |
| AppointmentService.AppointmentService.UpdateAppointmentStatus | src/modules/appointments/appointment.service.ts:252-281 | an unknown id fails; otherwise the status is written as given, with no check |
| AppointmentService.AppointmentService.FindAppointmentById | src/modules/appointments/appointment.service.ts:357-396 | the row with that id, or nothing iff there is none |
| AppointmentService.RemoveAtKeepsIds | src/modules/appointments/appointment.service.ts:398-417 | removing a row keeps the ids unique and below the counter |
| ClientsService.KeepOrSet | src/modules/clients/clients.service.ts:28-34 | a sent email replaces the stored one; a stored email is never erased; the result is one of the two |
| ClientsService.Upsert | src/modules/clients/clients.service.ts:20-45 | an existing phone in the company gets the new name in place, and the new email only when one is sent (an absent email keeps the stored one); otherwise a new, unblocked client takes the next id |
| ClientsService.UpsertKeepsPhonesUnique | src/modules/clients/clients.service.ts:20-45 | the upsert keeps phones unique within each company |
| ClientsService.UpsertIdempotent | src/modules/clients/clients.service.ts:20-45 | upserting the same data twice is the same as once |
| ClientsService.UpsertKeepsStoredEmail | src/modules/clients/clients.service.ts:27-35 | a returning client sent without an email keeps the stored email and id; only that row changes |
| ClientsService.CompanyClientsByName | src/modules/clients/clients.service.ts:48-63 | a permutation of the company's clients (each as often as in the table), sorted by name |
| ClientsService.ClientsService.Create | src/modules/clients/clients.service.ts:12-46 | an unknown company fails with nothing written; otherwise the table after Upsert |
| ClientsService.ClientsService.FindAll | src/modules/clients/clients.service.ts:48-63 | a permutation of the company's clients (each as often as in the table), sorted by name |
| ClientsService.ClientsService.FindOne | src/modules/clients/clients.service.ts:65-78 | the client with that id in that company, or not found iff there is none |
| ClientsService.ClientsService.Update | src/modules/clients/clients.service.ts:80-115 | not found iff no such client in the company; a changed phone held by another client of the company fails; otherwise name and phone are replaced in place, and the email when one is sent |
| ClientsService.ClientsService.Remove | src/modules/clients/clients.service.ts:117-141 | not found, then "has appointments" iff some appointment names the client; otherwise exactly that row is removed |
| ClientsService.ClientsService.BlockClient | src/modules/clients/clients.service.ts:143-163 | not found iff no such client in the company; otherwise the blocked flag is flipped |
| ServiceCatalog.NewService | src/modules/service/service.service.ts:50-56 | a created service is active and not deleted |
| ServiceCatalog.Edited | src/modules/service/service.service.ts:74-123 | details and price replaced; id, company, active flag and deletion time kept |
| ServiceCatalog.SoftDeleted | src/modules/service/service.service.ts:138-144 | inactive and stamped with the deletion time |
| ServiceCatalog.ActiveServices | src/modules/service/service.service.ts:159-180 | exactly the company's active services, each as often as in the table |
| ServiceCatalog.CreateKeepsNamesUnique | src/modules/service/service.service.ts:26-56 | creating under an unused name keeps names unique per company |
| ServiceCatalog.UpdateMayDuplicateNames | src/modules/service/service.service.ts:74-123 | an update can give two services of a company the same name |
| ServiceCatalog.SoftDeleteHides | src/modules/service/service.service.ts:125-180 | a soft-deleted service leaves the listing and all others stay |
| ServiceCatalog.ServiceService.Create | src/modules/service/service.service.ts:17-72 | a used name (inactive services included) fails first, then a price <= 1, and nothing else fails; otherwise one active service is appended |
| ServiceCatalog.ServiceService.Update | src/modules/service/service.service.ts:74-123 | unknown id, another company's service and a price <= 1 fail in that order, and nothing else fails; otherwise the row becomes Edited |
| ServiceCatalog.ServiceService.Delete | src/modules/service/service.service.ts:125-157 | an unknown id fails; otherwise the row becomes SoftDeleted, with no company check |
| ServiceCatalog.ServiceService.ListByCompanyId | src/modules/service/service.service.ts:159-180 | the company's active services, each as often as in the table |
| ServiceCatalog.ServiceService.GetById | src/modules/service/service.service.ts:182-201 | the active service with that id, or not found iff there is none |
| ServiceCatalog.ServiceService.GetByIds | src/modules/service/service.service.ts:203-216 | the active services whose id is listed, from any company, each as often as in the table |
| UserService.Patched | src/modules/user/user.service.ts:49-66 | the given fields are replaced and the rest kept |
| UserService.EmptyPatchKeeps | src/modules/user/user.service.ts:49-66 | an empty patch changes nothing |
| UserService.UserService.Create | src/modules/user/user.service.ts:15-47 | fails iff the email is already held, and with no other error; otherwise exactly the given user is appended under the next id |
| UserService.UserService.Update | src/modules/user/user.service.ts:49-66 | unknown id fails (P2025); a new email held by another user fails (P2002); otherwise the user becomes Patched |
| UserService.UserService.FindByEmail | src/modules/user/user.service.ts:68-89 | the user with that email, or nothing iff there is none |
| UserService.UserService.FindById | src/modules/user/user.service.ts:91-114 | the user with that id, or nothing iff there is none |
| UserService.UserService.IsUserAdmin | src/modules/user/user.service.ts:116-133 | true iff the user exists and its role is exactly ADMIN |
| CompanyService.LinkExists | src/modules/company/company.service.ts:432-438 | true iff some company has that link |
| CompanyService.NumberedRowsShrink | src/modules/company/company.service.ts:455-458 | each taken numbered link leaves fewer taken links ahead of the counter, so the loop ends |
| CompanyService.CompanyService.GenerateUniqueLink | src/modules/company/company.service.ts:440-461 | the result is the chosen link (`ChosenLink`): unused; the base when the base is free, otherwise the base plus the least counter k >= 1 whose link is free |
| CompanyService.InitialHours | src/modules/company/company.service.ts:339-356 | five rows, Monday to Friday, 08:00 to 17:00 |
| CompanyService.InitialHoursWellFormed | src/modules/company/company.service.ts:342-346 | the default rows pass the day and time-range checks and have distinct days |
| CompanyService.AppendInitialKeepsKeys | src/modules/company/company.service.ts:348-355 | adding the defaults for a company with no row for days 1 to 5 keeps (company, day) unique |
| CompanyService.CompanyService.CreateCompany | src/modules/company/company.service.ts:35-83 | link failure, then a used email fail with nothing written; otherwise the company is appended with no interval, under the link generateUniqueLink picks for the slug; the default hours are then added and the result is Ok, except that the createMany clash (UniqueViolation) happens iff a row with the new id and a day from 1 to 5 already exists, after the company is written |
| CompanyService.CompanyService.InsertCompany | src/modules/company/company.service.ts:60-65 | the company goes in under the next id with the given data, the unused link and no interval; ids and links stay unique |
| CompanyService.CompanyService.CreateInitialCompanyWorkingHours | src/modules/company/company.service.ts:339-356 | fails (unique-key clash) iff the company already has a row for one of days 1 to 5, writing nothing; otherwise appends the five default rows, keeping (company, day) unique |
| CompanyService.WithInterval | src/modules/company/company.service.ts:358-374 | a positive interval is written on that company; a missing or zero one changes nothing |
| CompanyService.RemoveOld | src/modules/company/company.service.ts:376-392 | the company's rows for days not sent are deleted; all other rows stay; (company, day) stays unique |
| CompanyService.UpsertHour | src/modules/company/company.service.ts:406-423 | the keyed row holds the given times, every row with another key stays, and at most one row is added; UpsertHourFacts gives uniqueness |
| CompanyService.UpsertHourFacts | src/modules/company/company.service.ts:406-423 | after the upsert the key has exactly the given times, other keys are untouched, and keys stay unique |
| CompanyService.CheckEntry | src/modules/company/company.service.ts:400-404 | an entry passes iff its day and time range are valid |
| CompanyService.ApplyEntries | src/modules/company/company.service.ts:399-424 | the loop succeeds iff every entry passes the checks |
| CompanyService.ApplyKeepsKeysUnique | src/modules/company/company.service.ts:399-424 | the loop keeps (company, day) unique |
| CompanyService.ApplyLeavesOthers | src/modules/company/company.service.ts:399-424 | rows outside the company's incoming days are untouched |
| CompanyService.ApplyDays | src/modules/company/company.service.ts:399-424 | after the loop the company has a row for a day iff it had one before or the day was sent |
| CompanyService.ApplyLastWins | src/modules/company/company.service.ts:399-424 | the last entry sent for a day is the one stored |
| CompanyService.CompanyService.UpsertCompanyWorkingHours | src/modules/company/company.service.ts:394-430 | the loop's writes and outcome are those of ApplyEntries |
| CompanyService.CompanyService.UpdateCompanyWorkingHours | src/modules/company/company.service.ts:253-295 | an unknown company fails with nothing written; otherwise the interval, then the removal of days not sent, then the checked upserts |
| CompanyService.UpdatedDaysAreIncoming | src/modules/company/company.service.ts:253-295 | on success the company's days are exactly the days sent, each a weekday 0..6, other companies are untouched and the last entry per day wins |
| CompanyService.FilterKeepsUnique | src/modules/company/company.service.ts:381-386 | deleting rows keeps (company, day) unique |
| CompanyService.CompanyService.CreateOrUpdateCompanyAddress | src/modules/company/company.service.ts:297-337 | fails iff the company is unknown, with no other error; otherwise the company has exactly one address, the given one, and other companies' addresses are untouched |

## Left out

- Logging, HTTP controllers, DTO decorators and the Nest module wiring: they have no effect on state.
- Transactions: each operation runs sequentially. Rollback matters only where a failure follows a
  write, and those places are stated explicitly in the contracts: the client upsert before
  pricing, the sentinels before a refused block, partial working-hour writes and the default hours
  after a company insert.
- Concurrency between requests: not modelled.
- JavaScript floating point: prices and sums are exact `real` numbers.
- `Number(part)` on version parts: modelled for decimal digit strings only. Other strings count as
  0. Signs, exponents, hex and surrounding spaces are not modelled.
- `slugify`: not modelled. `CompanyService.CompanyService.CreateCompany` takes the slug as a
  parameter.
- `parseISO`: not modelled. Dates are millisecond timestamps.
- `new Date()`: not modelled. Soft deletion takes the time as a parameter.
- The join rows between appointments and services on delete: the database schema is not part of
  this model, so its referential action is unknown here. The model assumes the delete of the
  appointment row succeeds, and `DeleteAppointment` and `DeleteBlock` leave the join rows in
  place. Under a restricting foreign key the database would instead refuse to delete a booked
  appointment; under a cascade it would remove its join rows.
- Include shapes, status translations (`STATUS_TRANSLATION`) and response mapping: not modelled.
  The operations return rows.
- `getCompanyAvailableTimes` (company.service.ts:31-33): not modelled. It returns the fixed list
  `['09:00', '10:00', '11:00', '14:00', '15:00']` whatever the company, and reads no table.
- The company read queries: not modelled. They read rows and change nothing. They are
  `getCompanyServices` (:85), `getCompanyWorkingHours` (:95), `findCompanyById` (:108),
  `findCompanyIdByUserId` (:129), `getCompanyByName` (:145), `getCompanyInfo` (:197) and
  `getCompanyByLinkName` (:233), all in company.service.ts.
- `updateCompanyProfile` (company.service.ts:159-195): not modelled as one operation. Inside one
  transaction it writes two rows. First it updates the company's name, phone, email and
  description, where the `description` column is not part of the `Company` record here. Then it
  writes the address. That second write is `CreateOrUpdateCompanyAddress`.
- Authentication, JWT and password hashing: not modelled. Passwords are stored as given, and roles
  are plain `Option<string>` values.
- The company check in `blockClient` (clients.service.ts:155-157) is not modelled, because it can
  never fire: the client was already looked up inside the company.
- The Prisma error filter, which maps P2025 to a 404: errors are returned as the `Error` enumeration.
- AppointmentService.AppointmentService.UpdateAppointment: covers only the admin form. The notes
  column is not rewritten, so an old discount note may remain beside a new discount.
- AppointmentService.AppointmentService.CreateAppointment: the admin branch is not checked against
  the caller's company, as in the source.
- ClientsService.CompanyClientsByName: orders names by character code (`LexLe`). The database's
  `orderBy: { name: 'asc' }` uses the column's collation, which can place accented names such as
  "Álvaro" differently. Collations are not modelled.
- ClientsService.ClientsService.FindAll: has the same character-code order as
  `CompanyClientsByName`.
- A client's email in the create and update data is either given or absent (`undefined`, which
  Prisma does not write). An explicit JSON `null`, which Prisma would write, is not told apart
  from an absent email.

# Proofs about the society management backend

A Dafny model of the parts of the backend where state and guards interact, with proofs of what every run of them keeps.

* **Occupancy and agreements** (`Ledger`, `OccupancyService`, `OccupancyHistory`, `OccupancyInvariants`, `AgreementLedger`,
  `OccupancyRuns`, `CachedStatus`, `AgreementTenure`, `SocietyScope`, `OccupancyAnswers`, `OccupancyFrames`, `OccupancyReplay`,
  `OccupancyMigrations`). Flats cache an occupancy status; the truth is in the resident and tenant rows; the guards read
  the cache. `Ledger` gives each step as a function on the
  books, `OccupancyService` is the object that rewrites its tables and is proved to compute those functions, and the
  other modules prove invariants over all runs, renewal chains, when the cached status is right, when the
  log can be replayed, when each request goes through, and that societies never touch each other.
* **Possession import** (`PossessionImport`, `PossessionImporter`, `PossessionResults`, with `FlatLookup` and `Text`). The
  row loop, its `seen` map and the dry run.
* **Sign-in, sessions and switching** (`Auth`, `AuthService`, `AuthHistory`, `TokenLineage`, `AuthAnswers`, `AccountRuns`,
  `LockOut`). Runs of sign-ins,
  refreshes, requests, password changes, resets, administration and clock ticks, with every token ever minted.
* **Login-splitting migration** (`LoginSplit`), **short codes** (`AutoCode`, `Decimal`), **edit requests**
  (`EditRequests`, `EditRequestService`, `EditRequestRuns`, `IsoDate`), **floors** (`Floors`).

A table is the sequence of its rows in insertion order and a row's id is its position. A query whose order the program
leaves open returns any row that matches: the answer is an out-parameter of the method and part of the event in a run.
Dates and times are integers, passwords are compared by an arbitrary function, and a step either refuses with no change
or succeeds as one.

Check everything with `dafny verify dfyconfig.toml`.

## Where the code does less than one might expect

All but the last come with the exact condition, proved for all inputs or runs, and an input for which it fails.

* A record that has moved out can be moved in again (`backend/app/services/occupancy_service.py:142-144`, `:230-232` do
  not test `is_active`). The log then says somebody lives in the flat and the records say nobody does:
  `OccupancyReplay.ReplayIsExact`, `OccupancyReplay.MovedOutRecordFoolsTheLog`. A tenant moved in so gets an active
  agreement while off the books, which can keep the next tenant out: `AgreementTenure.ActiveAgreementsHeld`,
  `AgreementTenure.SignedOffTheBooks`.
* A flat may be created with any occupancy status (`backend/app/schemas/flat.py:42`), and a possession row that moves
  nobody in leaves the status alone. The cached status of a flat is right exactly when it was created so or a move in or
  out of that flat has gone through since, so always where somebody lives: `CachedStatus.StatusRightExactlyWhen`,
  `OccupancyRuns.NeverDoublyOccupied`, `CachedStatus.CreatedOccupiedStaysOccupied`.
* A possession sheet with two good rows for one flat is order dependent when their dates differ, and only then:
  `PossessionResults.OrderDoesNotMatter`, `PossessionResults.JanuaryOrFebruary`.
* Flats may carry a floor number that no floor of the wing has; giving a floor that number merges them with its own, and
  renumbering back takes them along: `Floors.RenumberBackUndoes`, `Floors.StrayFlatIsSweptUp`.
* Python reads more date texts than it prints. A stored change need not come back as the same text, but those the desk
  stores itself do: `EditRequests.SerializeUndoesCoerce`, `EditRequests.EightDigitsComeBackDashed`,
  `EditRequestRuns.StoredChangesStand`.
* No step ever marks an agreement as expired (`OccupancyRuns.LedgerOnlyGrows`).

## Model

| member | source | states |
|---|---|---|
| `OccupancyService.OccupancyService.SyncStatus` | backend/app/services/occupancy_service.py:103-120 | the stored status of the flat becomes tenant occupied, owner occupied or vacant by who has moved in; nothing else changes |
| `OccupancyService.OccupancyService.LogEvent` | backend/app/services/occupancy_service.py:89-100 | one entry is appended to the log |
| `OccupancyService.OccupancyService.UnassignVehicles` | backend/app/services/occupancy_service.py:48-87 | every vehicle of the person loses keeper and slot, every other vehicle is as before |
| `OccupancyService.OccupancyService.ResidentMoveIn` | backend/app/services/occupancy_service.py:135-158 | refuses with the books unchanged or moves the resident in, in the order of the checks |
| `OccupancyService.OccupancyService.ResidentMoveOut` | backend/app/services/occupancy_service.py:160-186 | refuses with the books unchanged or moves the resident out, frees the vehicles, resyncs and logs |
| `OccupancyService.OccupancyService.TenantMoveIn` | backend/app/services/occupancy_service.py:226-269 | refuses with the books unchanged or moves the tenant in and records the agreement |
| `OccupancyService.OccupancyService.TenantMoveOut` | backend/app/services/occupancy_service.py:271-307 | refuses with the books unchanged or moves the tenant out and ends whichever active agreement the query returned |
| `OccupancyService.OccupancyService.RenewAgreement` | backend/app/services/occupancy_service.py:311-402 | refuses with the books unchanged or appends the renewal and retires the active agreement that ends last |
| `OccupancyService.OccupancyService.MoveInResidents` | backend/app/services/flat_possession_import.py:28-49 | returns how many residents were moved in and the note; they get the date and a log entry each, unless the date is ahead, nobody waits or the flat is let; a dry run only counts |
| `OccupancyService.OccupancyService.AddResident` | backend/app/services/resident_service.py:37-96 | the check made before the row exists refuses with nothing left behind; otherwise the resident is on record and moved in when a date is given |
| `OccupancyService.OccupancyService.AddTenant` | backend/app/services/tenant_service.py:45-86 | likewise for a tenant, with the agreement when both dates are given |
| `OccupancyService.OccupancyService.EditChannel` | backend/app/services/tenant_service.py:134-158 | the channel and its name are set on the tenant and on the active agreement alike |
| `SocietyScope.NotFoundElsewhere` | backend/app/services/occupancy_service.py:36-46 | whoever asks for something on another society's flat, or a deleted one, is told it is not found, and nothing changes |
| `SocietyScope.SocietiesApart` | backend/app/services/occupancy_service.py:36-46 | over any stretch of a run made up of other societies' steps, every flat, person, agreement, vehicle and log entry of a society stays as it is and none is added |
| `OccupancyAnswers.ResidentMovesIn` | backend/app/services/occupancy_service.py:124-158 | a resident of a flat the caller may act on moves in exactly unless the flat is marked let and a tenant is on its books; the date and one log entry are all that is written of them |
| `OccupancyAnswers.ResidentMovesOut` | backend/app/services/occupancy_service.py:160-186 | a resident of the flat moves out exactly unless the day is before the day of moving in; the record is closed on that day and the move logged |
| `OccupancyAnswers.ResidentIsAdded` | backend/app/services/resident_service.py:37-96 | a resident is put on record wherever moving in would go through, and as moved in on the day given |
| `OccupancyAnswers.TenantMovesIn` | backend/app/services/occupancy_service.py:190-269 | a tenant moves in exactly when no other is on the books, no resident in a flat marked as the owner's, and no active agreement of the flat shares a day with the terms; the one agreement made carries the terms, document included |
| `OccupancyAnswers.TenantMovesOut` | backend/app/services/occupancy_service.py:271-307 | a tenant of the flat moves out exactly unless the day is before the day of moving in; the agreement found ends that day, no other changes |
| `OccupancyAnswers.TenantIsAdded` | backend/app/services/tenant_service.py:45-86 | a tenant is put on record exactly when the agreement dates are both missing or in order and moving in, if asked for, would go through |
| `OccupancyAnswers.RenewalGoesThrough` | backend/app/services/occupancy_service.py:327-363 | on sound books a renewal goes through if and only if the tenant's flat is there for the caller, its dates are in order and lie after those of the tenant's active agreement, and no other tenant's active agreement of the flat shares a day with them |
| `OccupancyAnswers.ChannelIsEdited` | backend/app/services/tenant_service.py:134-158 | when the form goes through, the channel and name it leaves on tenant and active agreement, and that no channel or a direct one clears the name |
| `OccupancyAnswers.ResidentRefused` | backend/app/services/occupancy_service.py:135-172 | what a resident's move in or out is refused for: each refusal if and only if its own condition holds and no earlier one does |
| `OccupancyAnswers.TenantRefused` | backend/app/services/occupancy_service.py:190-283 | likewise a tenant's: flat, tenant, another tenant, a resident at home, the day |
| `OccupancyAnswers.RenewalRefused` | backend/app/services/occupancy_service.py:327-363 | likewise a renewal, on sound books: tenant, flat, dates, the active agreement, the step forward, the overlap |
| `OccupancyAnswers.StatusFollowsPeople` | backend/app/services/occupancy_service.py:103-116 | the status a flat should have: let exactly when a tenant is at home there, else the owner's exactly when a resident is, else vacant |
| `OccupancyAnswers.PossessionMoves` | backend/app/services/flat_possession_import.py:28-49 | a possession date moves in exactly the residents of the flat not moved in yet, unless it is ahead or a tenant is on the books, and writes the date in any case |
| `OccupancyRuns.StepKeepsSound` | backend/app/services/occupancy_service.py:103-402 | every step, refused or not, keeps: the cache right wherever somebody lives, no double occupation, one active agreement a tenant carrying the cached terms, disjoint dates, forward renewals |
| `OccupancyRuns.RunsStaySound` | backend/app/services/occupancy_service.py:103-402 | the same for every run of any length |
| `OccupancyRuns.NobodyOnRecordIsSound` | backend/app/schemas/flat.py:42 | runs may start from flats of arbitrary status |
| `OccupancyRuns.NeverDoublyOccupied` | backend/app/services/occupancy_service.py:103-133 | in every reachable state no flat has both a resident and a tenant living in it, nor two tenants; if anyone lives there the cached status is the derived one |
| `CachedStatus.StatusRightExactlyWhen` | backend/app/services/occupancy_service.py:103-120 | in every run, a flat's cached status is the derived one if and only if it was at an earlier point or a move in or out of the flat, with a create or a possession date too, has gone through since |
| `CachedStatus.StepStatus` | backend/app/services/occupancy_service.py:118-307 | one step leaves it right exactly when it was right or the step resynced the flat |
| `CachedStatus.CreatedOccupiedStaysOccupied` | backend/app/schemas/flat.py:42 | a concrete run: created owner occupied with nobody on record, a flat keeps that status, through a possession row too |
| `CachedStatus.GuardsExactOnceResynced` | backend/app/services/occupancy_service.py:124-224 | from then on the guards refuse exactly those the records keep out |
| `CachedStatus.StaleStatusRefuses` | backend/app/services/occupancy_service.py:127-133 | a concrete run before that: a resident refused by a flat nobody lives in |
| `OccupancyInvariants.ResidentGuardExact` | backend/app/services/occupancy_service.py:124-133 | where the status is right, a resident is refused exactly where a tenant lives |
| `OccupancyInvariants.TenantGuardExact` | backend/app/services/occupancy_service.py:190-224 | where the status is right, a tenant is refused exactly where another is on the books, a resident and no tenant lives, or the dates overlap an active agreement |
| `OccupancyInvariants.ResidentStepSetsStatus` | backend/app/services/occupancy_service.py:149-174 | after a resident's move-in or move-out the cached status is the derived one, whatever it was before |
| `OccupancyInvariants.TenantStepSetsStatus` | backend/app/services/occupancy_service.py:241-276 | the same for a tenant's move-in and move-out |
| `OccupancyInvariants.CacheStaysRight` | backend/app/services/occupancy_service.py:118-120 | a step that resyncs its own flat and leaves the occupants of all others keeps every cached status right |
| `OccupancyInvariants.TakePossessionSound` | backend/app/services/flat_possession_import.py:28-49 | moving waiting residents in from the sheet keeps the cache right and nobody doubly housed |
| `OccupancyFrames.MoveTouchesOnlyTheMover` | backend/app/services/occupancy_service.py:135-307 | a move changes no other flat, nobody else's record, agreement or vehicle, and only appends to the log |
| `OccupancyFrames.RecordChangesOnlyByOwnSteps` | backend/app/services/occupancy_service.py:135-381 | over any stretch of a run a person's record changes only by steps about that person, and whoever moved out stays moved out |
| `OccupancyFrames.RenewalMergesTerms` | backend/app/services/occupancy_service.py:354-381 | on sound books a renewal's terms are the tenant's cached terms with what was given put over them, in the ledger and on the tenant alike |
| `OccupancyRuns.RefusedPersonLeavesNothing` | backend/app/services/tenant_service.py:58-86 | the early checks foresee every refusal: a refused create leaves the books unchanged |
| `OccupancyRuns.OneTenancyAtATime` | backend/app/services/occupancy_service.py:215-293 | in every reachable state a tenant has at most one active agreement, it carries the cached terms, a second move-in with an agreement is refused, and move-out leaves none active whichever the query returns |
| `AgreementLedger.SecondAgreementRefused` | backend/app/services/occupancy_service.py:215-224 | the overlap guard always stops a tenant whose agreement is active |
| `AgreementLedger.MoveOutEndsTenancy` | backend/app/services/occupancy_service.py:287-296 | ending the one agreement found leaves the tenant none that is active |
| `AgreementLedger.RenewKeeps` | backend/app/services/occupancy_service.py:354-372 | appending the renewal and retiring the renewed agreement keeps one active agreement a tenant, disjoint dates and single, forward renewals |
| `AgreementLedger.AppendKeeps` | backend/app/services/occupancy_service.py:244-255 | so does the first agreement of a tenancy |
| `AgreementLedger.RewriteKeeps` | backend/app/services/occupancy_service.py:287-293 | so does ending an agreement |
| `OccupancyRuns.ActiveDatesDisjoint` | backend/app/services/occupancy_service.py:215-224 | in every reachable state no day belongs to two active agreements of one flat |
| `OccupancyRuns.ChainsInEveryRun` | backend/app/services/occupancy_service.py:335-372 | in every reachable state each renewal chain ends; along it tenant and flat stay, start and end dates strictly decrease, and all but the latest are renewed |
| `OccupancyRuns.RenewedExactlyOnce` | backend/app/services/occupancy_service.py:366-372 | an agreement is marked renewed exactly when exactly one agreement renews it |
| `OccupancyRuns.LedgerOnlyGrows` | backend/app/services/occupancy_service.py:287-372 | no agreement is removed or moved, and one renewed or terminated never changes again; none ever becomes expired |
| `AgreementTenure.ActiveAgreementsHeld` | backend/app/services/occupancy_service.py:230-293 | along a run every active agreement belongs to a tenant on its flat's books if and only if every move-in that made an agreement named a tenant on the books |
| `AgreementTenure.SignedOffTheBooks` | backend/app/services/occupancy_service.py:230-255 | a concrete run: a tenant who left is moved in again, and the agreement this makes keeps the next tenant out of an empty flat |
| `OccupancyReplay.ReplayIsExact` | backend/app/services/occupancy_service.py:149-307 | replaying the log gives exactly who lives where since when at every point of a run if and only if every move-in that went through named an active record |
| `OccupancyReplay.StepReplay` | backend/app/services/occupancy_service.py:135-307 | one step keeps the log exact if and only if it moves in no record that has moved out |
| `OccupancyReplay.MovedOutRecordFoolsTheLog` | backend/app/services/occupancy_service.py:142-154 | a concrete run from empty books: moved in, moved out, moved in again; home in the log, living nowhere on record |
| `OccupancyReplay.VacantMeansEmpty` | backend/app/services/occupancy_service.py:103-116 | a flat is derived vacant exactly when the replayed log has nobody in it |
| `OccupancyReplay.VacancyNotedExactly` | backend/app/services/occupancy_service.py:174-178 | a move-out logs the flat as vacant exactly when the log, replayed, leaves it empty |
| `OccupancyReplay.NobodyYet` | backend/app/services/occupancy_service.py:103-116 | an empty log is exact where nobody lives anywhere |
| `OccupancyMigrations.SyncFlatOccupancy` | backend/alembic/versions/0e4f5a6b7c8d_sync_flat_occupancy.py:27-46 | flats with people on record follow who lives there, all others are untouched, and the count is the number of rows changed |
| `OccupancyMigrations.ResetUnoccupiedFlats` | backend/alembic/versions/0f5a6b7c8d9e_reset_unoccupied_flats.py:27-46 | flats with nobody on record are vacant, all others are untouched, and exactly those marked let are listed |
| `OccupancyMigrations.BothMakeItRight` | backend/alembic/versions/0e4f5a6b7c8d_sync_flat_occupancy.py:23-46 | from any stored statuses, after both every one (none read as vacant) is the derived one |
| `OccupancyMigrations.MigratedBooksAreSound` | backend/alembic/versions/0f5a6b7c8d9e_reset_unoccupied_flats.py:23-39 | which is the cache invariant the service then keeps |
| `OccupancyMigrations.RightMeansNothingToDo` | backend/alembic/versions/0e4f5a6b7c8d_sync_flat_occupancy.py:41-45 | where every stored status is right neither migration changes a flat |
| `OccupancyMigrations.BothAgainChangeNothing` | backend/alembic/versions/0f5a6b7c8d9e_reset_unoccupied_flats.py:27-39 | running both once more changes nothing |
| `PossessionImporter.ImportPossessionDates` | backend/app/services/flat_possession_import.py:52-103 | the loop over the rows computes the results and the books of the specification |
| `PossessionImporter.ImportRow` | backend/app/services/flat_possession_import.py:60-94 | one row: looked up, rejected if repeated or badly dated, otherwise written and answered |
| `PossessionImporter.WriteRow` | backend/app/services/flat_possession_import.py:78-92 | the date is set and the waiting residents moved in; changed exactly when the date differs or somebody moved |
| `PossessionImport.AcceptedRows` | backend/app/services/flat_possession_import.py:65-78 | a row is accepted exactly when it names a listed flat not seen before and a good date |
| `PossessionResults.GoodDates` | backend/app/utils/unit_fields.py:5-15 | a date is taken exactly when it reads and lies from 1950 to 366 days ahead |
| `IsoDate.FirstOf1950` | backend/app/utils/unit_fields.py:5 | that first day is 1 January 1950, counted by the calendar the edit requests use |
| `IsoDate.YearLengths` | backend/app/utils/unit_fields.py:5 | whose months make up years by the leap rule |
| `PossessionResults.RowAnswer` | backend/app/services/flat_possession_import.py:65-94 | a row is answered with an error exactly when it is rejected, as updated exactly when the real run changes the books at it, and names the date on record |
| `PossessionResults.RepeatsWhen` | backend/app/services/flat_possession_import.py:65-76 | a row is told it repeats a flat exactly when an earlier good row was of that flat, whatever its own date; otherwise the lookup's refusal, then the date's |
| `PossessionResults.MessageSays` | backend/app/services/flat_possession_import.py:31-49 | the message beside the row: the date is ahead, the flat is let, how many moved in, or nothing when nobody was waiting |
| `PossessionResults.PreviousIsOnRecord` | backend/app/services/flat_possession_import.py:79-92 | the previous date of every accepted row is the one on record before the whole import |
| `PossessionResults.RepeatNamesFirst` | backend/app/services/flat_possession_import.py:66-78 | a repeated row is told the line of the first good row of its flat |
| `PossessionResults.ImportIsSimultaneous` | backend/app/services/flat_possession_import.py:58-94 | row after row, the import amounts to handing each dated flat over at once, judged by the books before |
| `PossessionResults.DryRunIsExact` | backend/app/services/flat_possession_import.py:58-94 | a dry run changes nothing and answers row for row what the real run answers |
| `PossessionResults.ImportIsIdempotent` | backend/app/services/flat_possession_import.py:58-94 | sending the sheet again the same day changes nothing, log included; errors repeat and all other rows are unchanged |
| `PossessionResults.RecordedMoveInsStay` | backend/app/services/flat_possession_import.py:33-45 | no move-in date on record is ever changed |
| `PossessionImport.RowNamesFlat` | backend/app/services/flat_possession_import.py:61-65 | a row with a wing finds a flat exactly when an active flat of the society has that wing and number |
| `PossessionImport.CleanedFirst` | backend/app/services/flat_possession_import.py:61-65 | cleaning a row's wing and number before the lookup cleans them again makes no difference |
| `PossessionResults.ImportStaysInSociety` | backend/app/services/flat_possession_import.py:54-94 | flats of other societies and deleted flats, and whoever is on record there, are left as they are |
| `PossessionResults.NoteCountsMoves` | backend/app/services/flat_possession_import.py:44-49 | the number reported as moved in is the number of residents whose record changes |
| `PossessionResults.OrderDoesNotMatter` | backend/app/services/flat_possession_import.py:58-94 | every order of the rows gives the same possession dates, move-in dates and statuses if and only if no two good rows give one flat different dates |
| `PossessionResults.TwoRowsTwoOutcomes` | backend/app/services/flat_possession_import.py:66-79 | one flat in two rows with any two good dates: whichever row comes first counts |
| `PossessionResults.JanuaryOrFebruary` | backend/app/services/flat_possession_import.py:66-79 | a concrete sheet of that kind, in both orders |
| `PossessionResults.ImportIsARun` | backend/app/services/flat_possession_import.py:58-94 | a real import is a run of the occupancy history, so the invariants of every run hold through it |
| `FlatLookup.FlatLookup.constructor` | backend/app/services/flat_lookup.py:20-26 | the two dictionaries filled in the loop index exactly the listing |
| `FlatLookup.FlatLookup.Find` | backend/app/services/flat_lookup.py:28-43 | the indexed lookup answers exactly as a scan of the listing |
| `FlatLookup.ScanWithWing` | backend/app/services/flat_lookup.py:33-37 | with a wing: succeeds exactly when some listed flat has the number and that wing name or code, and gives a matching one, the only one if unique |
| `FlatLookup.ScanWithoutWing` | backend/app/services/flat_lookup.py:38-43 | without: succeeds exactly when exactly one listed flat has the number, and gives that one |
| `FlatLookup.CodeAndNameFindTheSame` | backend/app/services/flat_lookup.py:23-37 | a wing's code or its name, in any case, finds the same flat where only one is so called |
| `FlatLookup.RefusalSays` | backend/app/services/flat_lookup.py:30-43 | which refusal there is and what it names: no number, no such flat in the wing, no such flat, or one in several wings |
| `FlatLookup.WithNumberCounts` | backend/app/services/flat_lookup.py:38-43 | none, one or several flats carry the number, by the refusal given |
| `AuthService.AuthService.StartSession` | backend/app/services/session_service.py:40-46 | a live session of the user is appended |
| `AuthService.AuthService.Touch` | backend/app/services/session_service.py:58-62 | the session's last use is written if five minutes old |
| `AuthService.AuthService.LiveFor` | backend/app/services/session_service.py:64-67 | exactly the user's sessions that are not revoked, each once |
| `AuthService.AuthService.Revoke` | backend/app/services/session_service.py:69-72 | a live session is stamped with time and reason, a revoked one keeps its own |
| `AuthService.AuthService.RevokeAll` | backend/app/services/session_service.py:74-82 | all the user's live sessions but the kept one are revoked, nobody else's, and the number returned is exactly theirs |
| `AuthService.AuthService.UsableOf` | backend/app/services/auth_service.py:71-81 | the usable logins in order and the first reason among the others |
| `AuthService.AuthService.IssueTokens` | backend/app/services/auth_service.py:93-114 | one new session carried by both tokens, peers only when there are several |
| `AuthService.AuthService.Login` | backend/app/services/auth_service.py:116-168 | the answer and tables of the specification, for every identifier, password and society |
| `AuthService.AuthService.RefreshSession` | backend/app/services/auth_service.py:238-281 | likewise for refresh |
| `AuthService.AuthService.CurrentUser` | backend/app/core/dependencies.py:35-92 | likewise for the check made on every request |
| `AuthService.AuthService.SwitchSociety` | backend/app/services/auth_service.py:194-211 | likewise for a switch, whichever usable login the query returns |
| `AuthService.AuthService.ChangePassword` | backend/app/services/auth_service.py:223-230 | likewise; on success no other session of the user is live |
| `AuthAnswers.LetsThrough` | backend/app/core/dependencies.py:35-92 | a request is let through if and only if its access token is unexpired, its login on record, active and enabled, its session live and its own, and the path open to it; it acts as that login, session and peers |
| `AuthAnswers.DeviceIsNoted` | backend/app/services/session_service.py:58-62 | a good token notes its device as seen, and no other, if it was last seen five minutes ago or more; a bad one notes nothing |
| `AuthAnswers.RefreshesWhen` | backend/app/services/auth_service.py:238-281 | a refresh goes through if and only if its refresh token is unexpired, its login enabled, its society not shut and its session live and its own; the new tokens are of that login, session and peers, one of each kind with its own life |
| `AuthAnswers.RefusedFor` | backend/app/core/dependencies.py:41-66 | what a request or a refresh is refused for: each reason if and only if its own condition holds and no earlier one does |
| `AuthAnswers.SignInRefusedFor` | backend/app/services/auth_service.py:116-161 | likewise a sign-in: wrong credentials, locked whatever the password, nobody usable in the society |
| `AuthAnswers.SignInMints` | backend/app/services/auth_service.py:93-114 | sign-in mints one token of each kind with its own life, for an enabled login of an open society whose password was given, and notes the time on that login alone |
| `AuthAnswers.OldestSignsIn` | backend/app/services/auth_service.py:157-162 | naming a society signs in to the oldest of the logins there that could be meant |
| `AuthAnswers.WhyBlocked` | backend/app/services/auth_service.py:61-81 | a login cannot be used if its status is not active, else if it is disabled, else if its society is shut, for that reason |
| `AuthAnswers.NoneUsable` | backend/app/services/auth_service.py:152-155 | where no login the password matches can be used, the oldest one's reason is answered and nothing is recorded |
| `AuthAnswers.SwitchMints` | backend/app/services/auth_service.py:194-211 | a switch goes through exactly to another enabled login of the society among the peers, found by the query, and mints for it |
| `AuthAnswers.CandidatesAreNamed` | backend/app/repositories/user_repo.py:91-100 | the logins tried are the enabled ones the text names by email, ignoring case, or mobile number; the ten oldest where there are more |
| `AuthAnswers.SpellingsFindTheSame` | backend/app/repositories/user_repo.py:12-24 | every spelling of a mobile number, with +91, 91 or 0 before it and blanks, dashes and brackets anywhere, finds the same logins |
| `AuthAnswers.DashesSkipped` | backend/app/repositories/user_repo.py:12-24 | for instance a blank after the prefix and a dash between the parts |
| `AccountRuns.DisabledUntilEnabled` | backend/app/core/dependencies.py:18-57 | once a login is disabled or suspended, its tokens, password and switches are refused until administration enables it again |
| `AccountRuns.ShutUntilReopened` | backend/app/core/society_gate.py:21-31 | while its society is shut a login that is no platform admin's gets no tokens and only the open paths |
| `AccountRuns.TokensExpire` | backend/app/services/auth_service.py:93-114 | every token of a run was minted at some moment of it, lasts its kind's life from then, and is refused everywhere after |
| `AccountRuns.DeviceSignedOut` | backend/app/api/routes/auth.py:105-114 | a device can be signed out exactly while signed in as the caller's; no other device is touched |
| `AccountRuns.SignedOutForGood` | backend/app/api/routes/auth.py:81-113 | once a request signs a device out, by logging out, changing the password, switching or from another device, its tokens are refused for the rest of the run |
| `AccountRuns.DeviceStaysSignedIn` | backend/app/api/routes/auth.py:81-113 | and until one does, a signed-in device stays signed in, whatever others do |
| `AccountRuns.ResetSignsOutEverywhere` | backend/app/services/user_service.py:108-119 | a reset signs the login out on every device for good |
| `AccountRuns.ChangeTakesEffect` | backend/app/services/auth_service.py:223-230 | a change goes through if and only if the current password is given; exactly the passwords the new hash verifies open the login, and no other login changes |
| `AccountRuns.NewPasswordCounts` | backend/app/services/auth_service.py:223-230 | from a change on, until the next password is set for the login, the new password matches wherever the typed text names the login, and none matches that the new hash does not verify |
| `AccountRuns.TemporaryPasswordCounts` | backend/app/services/user_service.py:108-119 | likewise after a reset, and the temporary password must be changed |
| `TokenLineage.SignsInToSociety` | backend/app/services/auth_service.py:157-168 | with a society: signs in to a usable login of that society exactly when there is one |
| `TokenLineage.UsableOldestFirst` | backend/app/repositories/user_repo.py:91-100 | the usable logins are all different and offered oldest first |
| `TokenLineage.SwitchHandsOver` | backend/app/services/auth_service.py:194-211 | after a switch the old session has ended and one of an unblocked peer of that society has begun; no other session changed |
| `TokenLineage.NoTokensYet` | backend/app/services/auth_service.py:93-114 | runs start before any token is issued |
| `TokenLineage.StepKeepsLineages` | backend/app/services/auth_service.py:93-281 | every step keeps the peers, the subject and the single live session of every lineage |
| `TokenLineage.OneLineage` | backend/app/services/auth_service.py:93-281 | all tokens descending from one sign-in, through any refreshes and switches, belong to a login usable then, carry exactly those logins as peers (none if one), and at most one of their sessions is live |
| `TokenLineage.RunOnlyEndsSessions` | backend/app/services/session_service.py:69-82 | over any run sessions are added, never change hands and never come back to life |
| `TokenLineage.DeadSessionRefused` | backend/app/core/dependencies.py:59-70 | a token of a session that is not live for its subject is refused by refresh and by every request, with no effect |
| `TokenLineage.RevokedForGood` | backend/app/services/session_service.py:55-72 | and so for the rest of the run |
| `TokenLineage.PasswordChangeLocksOthersOut` | backend/app/services/auth_service.py:223-230 | after a password change every token of the login's other devices is refused for the rest of the run |
| `LockOut.NeverMoreThanTen` | backend/app/services/auth_service.py:25-27 | in every run any closed fifteen minutes hold at most ten recorded failures of one login |
| `LockOut.LoginKeepsBound` | backend/app/services/auth_service.py:130-150 | a sign-in keeps that bound |
| `AccountRuns.FailureRecordedExactlyWhen` | backend/app/services/auth_service.py:131-150 | a failure is recorded, against the first login named, if and only if that login is not locked and no login named has the password |
| `LockOut.LockedWhileTenthLastRecent` | backend/app/services/auth_service.py:213-221 | a login is locked exactly while the tenth last of its failures is within the window |
| `LockOut.LockedRecordsNothing` | backend/app/services/auth_service.py:131-136 | nothing is recorded against a locked login |
| `LockOut.LockLifts` | backend/app/services/auth_service.py:131-150 | however many attempts are refused meanwhile, the lock lifts exactly when the tenth last failure leaves the window |
| `LoginSplit.SplitCrossSocietyLinks` | backend/alembic/versions/f2c5d9e7a1b3_users_unique_per_society.py:42-85 | the whole split: logins found or made per society and old login, links moved to them, only copies added, uniqueness of contacts kept, one role granted per copy |
| `LoginSplit.SplitTable` | backend/alembic/versions/f2c5d9e7a1b3_users_unique_per_society.py:51-85 | one table's rows in turn |
| `LoginSplit.SplitPerson` | backend/alembic/versions/f2c5d9e7a1b3_users_unique_per_society.py:61-85 | one row, with the memo |
| `LoginSplit.LoginFor` | backend/alembic/versions/f2c5d9e7a1b3_users_unique_per_society.py:64-83 | an active login of the society sharing email or mobile number, or a copy exactly when there is none |
| `LoginSplit.NobodyCrosses` | backend/alembic/versions/f2c5d9e7a1b3_users_unique_per_society.py:42-60 | afterwards no resident or tenant is linked to another society's login |
| `LoginSplit.OneLoginPerSocietyAndOldLogin` | backend/alembic/versions/f2c5d9e7a1b3_users_unique_per_society.py:61-85 | each society and old login have exactly one login in their place, the same across both tables; everybody whose link crossed is linked to it, everybody else's row is as before |
| `LoginSplit.AddedStandIn` | backend/alembic/versions/f2c5d9e7a1b3_users_unique_per_society.py:68-84 | every login added stands in for the old login of somebody whose link crossed: same name, contacts and password, its own society, no platform admin |
| `LoginSplit.ServesWhen` | backend/alembic/versions/f2c5d9e7a1b3_users_unique_per_society.py:64-67 | the logins looked up in place of an old one: of the society, in use, with its email or its mobile number |
| `LoginSplit.ContactsApart` | backend/alembic/versions/f2c5d9e7a1b3_users_unique_per_society.py:23-29 | uniqueness of contacts is what the two indexes ask |
| `LoginSplit.AddingCopyKeepsUnique` | backend/alembic/versions/f2c5d9e7a1b3_users_unique_per_society.py:23-29 | a copy added where nobody of the society shares its contacts keeps emails and numbers unique among active logins |
| `LoginSplit.SecondRunChangesNothing` | backend/alembic/versions/f2c5d9e7a1b3_users_unique_per_society.py:9-10 | a second run changes nothing |
| `AutoCode.ShortCode` | backend/app/utils/auto_code.py:10-28 | the search ends, with the first of base, base2, base3... not taken, ignoring case |
| `AutoCode.TriedInjective` | backend/app/utils/auto_code.py:24-27 | no two tries are the same code |
| `AutoCode.CodesInTurnDiffer` | backend/app/utils/auto_code.py:10-28 | codes given one after another differ from each other and from those taken |
| `AutoCode.KindAddsNothing` | backend/app/utils/auto_code.py:7-17 | a word that says what kind of place it is adds nothing to the code, before or after a name that says which one it is |
| `AutoCode.SingleWordCode` | backend/app/utils/auto_code.py:18-19 | a single such word codes as itself, or as its first three characters where it is too long |
| `AutoCode.InitialsCode` | backend/app/utils/auto_code.py:20-22 | several such words code as their initials, as many as fit |
| `AutoCode.NamelessCode` | backend/app/utils/auto_code.py:14-17 | a name without letters and digits codes as X |
| `AutoCode.TwoWordsCode` | backend/app/utils/auto_code.py:20-22 | two such words code as their initials |
| `AutoCode.KindAlone` | backend/app/utils/auto_code.py:15 | a name of the kind alone codes as itself |
| `AutoCode.NextNumberContinues` | backend/app/utils/auto_code.py:31-35 | there is a next number exactly when some code is numeric; it reads as one more than the highest |
| `Decimal.ReadPrint` | backend/app/utils/auto_code.py:34-35 | reading a printed number gives it back |
| `EditRequests.CoerceUndoesSerialize` | backend/app/services/resident_edit_request_service.py:25-40 | a value survives being stored and read back if and only if it is of its field's kind |
| `EditRequests.SerializeUndoesCoerce` | backend/app/services/resident_edit_request_service.py:25-40 | a change that can be read is stored as itself again if and only if it holds no date or a date as isoformat prints it, whatever further texts the program reads as dates |
| `EditRequests.EightDigitsComeBackDashed` | backend/app/services/resident_edit_request_service.py:36-37 | a concrete change for which it fails: eight digits are read and stored again with dashes |
| `EditRequests.AskedSetsForm` | backend/app/services/resident_edit_request_service.py:85-88 | putting a form over a resident's columns sets each of the eight from its own entry, keeps those left out, and every other column |
| `EditRequests.NothingAsked` | backend/app/services/resident_edit_request_service.py:85-87 | a form asks for nothing exactly when all eight entries were left out |
| `EditRequestRuns.AskingGoesThrough` | backend/app/services/resident_edit_request_service.py:71-97 | asking goes through exactly for a linked resident without a request waiting and a form not left empty; the request is the resident's, the caller's and the society's, waiting, unreviewed |
| `EditRequestRuns.RejectionWorks` | backend/app/services/resident_edit_request_service.py:168-178 | rejection goes through exactly for a waiting request of the caller's society, which keeps reviewer and reason; no resident changes |
| `EditRequestRuns.ReviewRefused` | backend/app/services/resident_edit_request_service.py:130-172 | approval and rejection alike: another society's request is not found, a reviewed one stays reviewed |
| `EditRequestRuns.ApprovalNotes` | backend/app/services/resident_edit_request_service.py:154-155 | an approval notes who approved and changes no other request |
| `EditRequestService.EditRequestService.MyResident` | backend/app/services/resident_edit_request_service.py:59-67 | an active resident of the login, or none when there is none |
| `EditRequestService.EditRequestService.CreateRequest` | backend/app/services/resident_edit_request_service.py:71-97 | refuses without a profile, with a request pending or with nothing asked; otherwise one pending request is added |
| `EditRequestService.EditRequestService.ApproveRequest` | backend/app/services/resident_edit_request_service.py:140-158 | refuses with nothing changed, or applies the changes and marks the request |
| `EditRequestService.EditRequestService.SetAll` | backend/app/services/resident_edit_request_service.py:149-152 | setting the fields one by one, in any order, sets exactly the editable ones, or stops at an unreadable one |
| `EditRequestService.EditRequestService.RejectRequest` | backend/app/services/resident_edit_request_service.py:168-178 | refuses with nothing changed, or marks the request rejected with the reason |
| `EditRequestRuns.NeverTwoPending` | backend/app/services/resident_edit_request_service.py:74-83 | in no reachable state does a resident have two requests pending |
| `EditRequestRuns.StoredChangesStand` | backend/app/services/resident_edit_request_service.py:85-88 | in every reachable state every stored change is to an editable field, can be read, and is stored again as it stands |
| `IsoDate.CanonicalFormat` | backend/app/services/resident_edit_request_service.py:26-27 | the text of every date is that date's |
| `EditRequestRuns.ReviewedOnce` | backend/app/services/resident_edit_request_service.py:140-171 | a request is approved or rejected at most once in a run |
| `EditRequestRuns.ApprovalWorks` | backend/app/services/resident_edit_request_service.py:130-152 | in every reachable state approval succeeds exactly for a pending request of the approver's society |
| `EditRequestRuns.ApprovalSetsWhatWasAsked` | backend/app/services/resident_edit_request_service.py:140-158 | every approval in a run goes back to an earlier asking; whatever happened in between, each of the eight columns of that resident then holds what its own entry of the form gave, or what it held before, and nothing else of any resident changes |
| `Floors.FloorService.CreateFloor` | backend/app/services/floor_service.py:31-46 | refuses with nothing changed, or adds the floor to the wing and to the wing's society |
| `Floors.FloorService.UpdateFloor` | backend/app/services/floor_service.py:64-78 | refuses with nothing changed, or renames and renumbers the floor and moves its flats |
| `Floors.FloorService.DeleteFloor` | backend/app/services/floor_service.py:80-89 | refuses, with the exact number, while flats remain; otherwise deactivates the floor |
| `Floors.FloorService.CountFlats` | backend/app/services/floor_service.py:18-22 | the active flats of the wing with the floor's number |
| `Floors.CreationWorks` | backend/app/services/floor_service.py:31-46 | a floor is added exactly to an active kept wing of the caller's society under a free number; the row has the number and name given, the wing's society, and is active |
| `Floors.ChangeWorks` | backend/app/services/floor_service.py:64-78 | a floor is changed exactly when the number it is to have is its own or free; it has what was given and keeps what was left out, and exactly the flats that carried the old number move |
| `Floors.DeletionWorks` | backend/app/services/floor_service.py:80-89 | a floor is deleted exactly when no active flat of the wing carries its number; only its row changes |
| `Floors.CountIsExact` | backend/app/services/floor_service.py:15-23 | the number of flats that keep a floor is the size of the set of active flats of the wing with its number |
| `Floors.StepsKeepOrder` | backend/app/repositories/floor_repo.py:29-42 | active floors of a wing keep different numbers and every floor its wing's society |
| `Floors.RenumberCounts` | backend/app/services/floor_service.py:70-76 | the floor counts as many flats after renumbering as before if and only if no flat of the wing had the new number; no other floor's count moves |
| `Floors.RenumberBackUndoes` | backend/app/services/floor_service.py:70-76 | renumbering back is always allowed, and restores everything if and only if no flat of the wing had the new number |
| `Floors.StrayFlatIsSweptUp` | backend/app/services/floor_service.py:70-76 | a concrete wing for which it does not: a flat without a floor is swept up there and back |
| `Floors.CreateKeepsHomes` | backend/app/services/floor_service.py:31-46 | a new floor strands no flat |
| `Floors.UpdateKeepsHomes` | backend/app/services/floor_service.py:73-76 | renumbering strands no flat on a number without a floor |
| `Floors.DeleteKeepsHomes` | backend/app/services/floor_service.py:84-89 | neither does deleting a floor |
| `Floors.OrderlyRenumbering` | backend/app/services/floor_service.py:64-78 | where every numbered flat has its floor, renumbering keeps every floor's flats and can be taken back |

## Left out

- The database, ORM sessions, HTTP, routing, commit and rollback: a service method is one atomic step. The audit trail, which commits or rolls back on its own, is not part of this model, apart from the failed sign-ins it records.
- Concurrent requests: the checks are read-then-write, and the model is a single sequential history.
- Row objects shared between variables (aliasing): a row is a value in its table.
- Password hashing, token signing and identifier parsing: an arbitrary comparison, immutable records and positions. Tokens are minted by the service alone, and those it mints always carry a session.
- The clock: one day for a whole import, one time for a whole request.
- Unicode: upper and lower case, blanks and digits are those of the first 128 characters.
- The reading of dates: any reader that reads each date's own text as that date, for the edit requests; any reader at all, for the possession import.
- The wording of messages: refusals and notes are values with the numbers and names they mention.
- Who logged an event, notes, creation times, and the society recorded on agreements and log entries.
- Parking allocations of a leaver's vehicles: only the vehicle's own keeper and slot.
- Natural sort order of listings: the lookup is proved for a listing in any order.
- Creating residents: duplicate names, the primary-resident rule, duplicate warnings and the provisioning of logins. Field validators other than the agreement dates rule.
- Other edits of flats and people (numbers, names, floors, deletion of an empty flat), which touch none of the fields the occupancy proofs are about. A deleted flat may only be one nobody lives in; here flats are never deleted.
- The tenant import, seed scripts and account tools.
- Registration, forgotten passwords, the listing of societies and devices, device names, user roles and permissions. Which paths stay open to a suspended society is a parameter of the request.
- The order of peers in a token after a switch: peers are compared as sets.
- Deletion of wings, which takes their empty floors along; floor names are kept as given.
- Billing, accounts, complaints, notices, push messages and the mobile app.
- OccupancyService.OccupancyService.AddResident: covers the flat, the move-in and the refusals of the occupancy checks, because the other checks of the create form are about names and contacts.
- OccupancyService.OccupancyService.EditChannel: covers the agreement channel and its name, because no other field of the tenant's edit form is shared with the ledger.
- OccupancyService.OccupancyService.LogEvent: an entry has the flat, the person, the kind and the date, because who logged it, the wing, the society and the notes are read by no step.
- OccupancyService.OccupancyService.AddTenant: covers the flat, the agreement dates, the move-in and the refusals of the occupancy checks, because the linked login and the duplicate warnings decide nothing about occupancy.
- AuthService.AuthService.StartSession: a session has its user and times, because the device name and address are only shown.
- AuthService.AuthService.LiveFor: the sessions are not ordered by last use, because revoking them all does not depend on their order.
- AuthService.AuthService.IssueTokens: tokens carry no roles, because no step of sign-in reads them back.
- AuthService.AuthService.CurrentUser: whether a path is open is given, because the list of paths is configuration.

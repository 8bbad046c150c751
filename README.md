# MaintenaTrack maintenance logs, modelled in Dafny

MaintenaTrack is a Django application in which technicians record
maintenance logs: one log per incident, carrying a zone, an alarm code and
name, a LAM-check flag, a difficulty and a description, and optionally
linked to a piece of equipment. Each log has ordered steps (action, result,
duration, performer). This project models the write paths and the list
query of the `maintenance` app, and proves what they do to the three tables:

- **Schema** (`models.dfy`): the Equipment, MaintenanceLog and Step rows. The
  database is a `Store` object with one map per table and a primary-key
  counter per table. Its invariant `Valid()` holds:
  - the (name, zone) and asset-tag uniqueness constraints of Equipment;
  - the (log, order) uniqueness constraint of Step;
  - the foreign keys.

  Every write method (insert, update, and the CASCADE and SET_NULL deletes)
  preserves the invariant and states the new state in full.
  `MaintenanceLog.clean` (zone inheritance, blank and length checks) is
  `Clean`.
- **Log handlers** (`views.dfy`):
  - `log_create` and `log_update` share the step-saving loop (`SaveSteps`).
  - The loop is specified by the list of steps it plans to insert
    (`PlannedSteps`).
  - `FirstClash` is the number of planned steps inserted before the (log,
    order) constraint rejects one.
  - `NewRows` gives the rows those inserts add.
  - `log_delete` and `equipment_delete` model the author checks and the
    deletes.
- **Quick add** (`quick_add.dfy`): `add_equipment` sanitises the zone, scans
  the `AUTO-<n>` tags for the next free number, and inserts the row. On an
  IntegrityError it falls back to the existing row with the same (name, zone).
- **List** (`listing.dfy`): `log_list` applies its search, zone, difficulty
  and own-logs filters, orders newest first, and paginates 10 per page with
  Django's `get_page` clamping.
- **Admin** (`admin.dfy`): the `save_model` hooks of `MaintenanceLogAdmin`
  and `StepAdmin` fill defaults into the unsaved instance, which is a class
  updated in place, and then save it. The `mark_lam_checked` bulk action is
  also modelled.

`text.dfy` holds the string functions the code relies on: Python's
`str.strip()`, `upper()`/`lower()`, case-insensitive containment, and decimal
numerals. `wrappers.dfy` holds `Option` and `Result`.

Points where the behaviour of the code is easy to misread, and which the
model follows:

- **Creating a log is not atomic.** The log row is inserted before its steps.
  When a step insert fails, the exception is caught (views.py:141-142) and
  the log stays, together with the steps inserted before the failure
  (`SaveFailed`).
- **Updating a log has no exception handler.** The failing insert escapes
  (`Crashed`). The old steps are already deleted and the new steps inserted
  before the failure are kept.
- **Step order.** An explicit order can collide with an order the loop
  assigns itself (`ExplicitOrderCollides`). A missing or zero order becomes
  "saved so far + 1".
- **`MaintenanceLog.clean` only inherits and checks the zone.** It neither
  strips nor upper-cases it. Only the quick-add endpoint upper-cases zones.
- **Inheritance never affects a saved log created through the forms.**
  - `MaintenanceLogForm`'s zone field is a required, stripped `CharField`.
    A blank zone fails that field check. The model's `clean` still runs on
    the form (Django calls it after a field error), but the form is already
    invalid, so `clean`'s inheritance and its blank-zone error can only
    change a saved log when the form's field validation is bypassed.
  - The model keeps them because `clean` has them.
  - In the admin, `obj.zone` is always a string, so the hook's
    `None`/`0` test never fires through the admin form either
    (`AdminKeepsEmptyTextZone`).
- **`equipment_delete` also refuses when a log without an author uses the
  equipment.** `exclude(created_by=user)` keeps rows whose author is null
  (`LoggedByOthers`).

## Model

Predicates and functions that only define a filter, a table lookup or a set of valid inputs have no row of their own; the row of the member whose contract uses them names them in parentheses.

| member | source | states |
|---|---|---|
| `Text.Strip` | maintenance/views.py:38-41 | the result is empty exactly when the input is all white space, and otherwise starts and ends with a non-space character; it is never longer than the input (`IsBlank` is "empty after `Strip`") |
| `Text.StripIsSlice` | maintenance/views.py:175-176 | `strip()` removes outer white space and nothing else: the result is a contiguous piece `s[i..j]` of the input, and `s[..i]` and `s[j..]` are all white space |
| `Text.StripBounds` | maintenance/views.py:175-176 | the cut points of `strip()`, with the same property, by induction on the input |
| `Text.StripUnpadded` | maintenance/views.py:175-176 | a string with no white space at either end is its own `strip()` |
| `Text.UpperOfUpper` | maintenance/views.py:192 | `upper()` (`Upper`) leaves a string without lower-case letters unchanged, so upper-casing is idempotent |
| `Text.DecimalRoundTrip` | maintenance/views.py:204-206 | reading back the decimal numeral of `n` gives `n` (`int(str(n)) == n`) |
| `Text.LeadingDigitsOfDigits` | maintenance/views.py:204 | the greedy `\d+` match of an all-digit string is the whole string |
| `Models.EquipmentOf` | maintenance/models.py:73-80 | a nullable equipment reference resolves exactly when it is set and names an existing row, and then to that row |
| `Models.InheritZone` | maintenance/models.py:133-135 | a non-empty zone is kept; an empty zone takes the linked equipment's non-empty zone; the zone changes only in that case, and the result is empty exactly when neither is available |
| `Models.Clean` | maintenance/models.py:129-145 | accepts exactly the zones that are non-blank after inheritance and at most 10 characters once stripped, returning the inherited (unstripped, not upper-cased) zone; `ZoneRequired` exactly for a blank zone, `ZoneTooLong` exactly for an over-long one |
| `Models.WhitespaceZoneRejected` | maintenance/models.py:134-140 | a zone of white space only is not replaced by the equipment's zone and is rejected as blank |
| `Models.StepsWithout` | maintenance/views.py:283-284 | after deleting the steps of a log, none of its steps remains and every step of another log remains unchanged |
| `Models.LogsUnauthored` | maintenance/models.py:82-88 | `created_by` SET_NULL: the same logs, with the deleted user's authorship cleared and nothing else changed |
| `Models.StepsUnperformed` | maintenance/models.py:165-171 | `performed_by` SET_NULL: the same steps, with the deleted user cleared, and each step's log and order kept |
| `Models.Store.constructor` | maintenance/models.py:174-181 | the empty database satisfies every constraint |
| `Models.Store.InsertEquipment` | maintenance/models.py:48-54 | the insert fails exactly when the (name, zone) pair or the non-null asset tag is taken, and then changes nothing; otherwise it adds the row under a fresh key and keeps every constraint |
| `Models.Store.InsertLog` | maintenance/models.py:73-88 | adds the row under a fresh key that has no steps, and keeps every constraint |
| `Models.Store.UpdateLog` | maintenance/views.py:281 | replaces exactly one log row and keeps every constraint |
| `Models.Store.InsertStep` | maintenance/models.py:174-181 | the insert fails exactly when the log already has a step with that order, and then changes nothing; otherwise it adds the row under a fresh key |
| `Models.Store.UpdateStep` | maintenance/models.py:176-181 | the update fails exactly when another step of the log has that order, and then leaves the steps unchanged; otherwise it replaces exactly that row |
| `Models.Store.DeleteStepsOf` | maintenance/views.py:283-284 | removes exactly the steps of the log and keeps every constraint |
| `Models.Store.DeleteLog` | maintenance/models.py:150-154 | CASCADE: removes the log and exactly its steps, and keeps every constraint |
| `Models.Store.DeleteEquipment` | maintenance/models.py:73-80 | SET_NULL: removes the equipment; every log stays and exactly those that referenced it lose the reference |
| `Models.Store.DeleteUser` | maintenance/models.py:82-88 | SET_NULL on both user references keeps every constraint, every log and every step |
| `QuickAdd.KeepZoneChars` | maintenance/views.py:186 | the kept characters are all in `[A-Za-z0-9_-]`, and a string made only of them is kept whole |
| `QuickAdd.KeepZoneCharsFilters` | maintenance/views.py:186 | the filter keeps the zone characters in their order: one character survives exactly when it is a zone character, and filtering `a + b` gives the filtered `a` followed by the filtered `b` |
| `QuickAdd.SanitizeZone` | maintenance/views.py:176-192 | missing exactly for a blank zone, too long exactly when more than 10 characters survive the filter, empty exactly when none survives; otherwise the upper-cased filtered zone, 1 to 10 characters of `[A-Z0-9_-]` |
| `QuickAdd.SanitizeZoneIdempotent` | maintenance/views.py:184-192 | a sanitised zone sanitises to itself |
| `QuickAdd.AutoTagReadsBack` | maintenance/views.py:198-211 | the generated tag `AUTO-(m+1)` passes the `AUTO-` prefix query (case-insensitive, as SQLite's `LIKE`) and the regex (`AutoMatch`), and reads back (`AutoNumberOf`) as `m+1` |
| `QuickAdd.AutoTagFresh` | maintenance/views.py:202-211 | when `m` bounds every number the scan reads, `AUTO-(m+1)` is carried by no existing row |
| `QuickAdd.MaxAutoNumber` | maintenance/views.py:198-206 | the result bounds every number read (`AutoNumberOf`) from the existing `AUTO-` tags, and is 0 or one of them: the maximum |
| `QuickAdd.QuickRow` | maintenance/views.py:209-214 | a quick-added row has the default status, active |
| `QuickAdd.CreateOrReuse` | maintenance/views.py:196-230 | reuses exactly when the (name, zone) pair is taken, changing nothing and returning that row; otherwise inserts, under a fresh key, the active row tagged `AUTO-(m+1)` where `m` is the largest scanned number (0 when there is none), a tag no existing row carries |
| `QuickAdd.AddEquipment` | maintenance/views.py:170-234 | rejects a blank name first, then exactly the zones the sanitiser refuses, writing nothing; otherwise returns the stripped name and sanitised zone, reused exactly when the pair was taken |
| `Views.FillStep` | maintenance/views.py:127-132 | a step built from a row keeps its fields, takes "saved so far + 1" for a missing or zero order, and the acting user for a missing performer |
| `Views.FilledForms` | maintenance/views.py:123-126 | the rows the loop saves (`IsFilled`: non-blank action) are at most the submitted rows and all filled, every filled row is kept, and a single row is kept exactly when it is filled |
| `Views.FilledFormsAppend` | maintenance/views.py:123-126 | skipping blank rows distributes over concatenation, so the filled rows are kept in submission order |
| `Views.FilledFormsMember` | maintenance/views.py:123-126 | every filled row is one of the submitted rows |
| `Views.PlannedStepsShape` | maintenance/views.py:123-132 | every step of `PlannedSteps` (the filled rows, defaulted by `FillStep`) belongs to the log, has a non-blank action and a performer, and is numbered by its position when its order is missing |
| `Views.FirstClash` | maintenance/views.py:123-134 | the steps before the cut have distinct orders, and the step at the cut repeats an earlier order |
| `Views.FirstClashUnique` | maintenance/views.py:123-134 | the cut is the only index with distinct orders before it and a repeated order at it |
| `Views.AllSavedIffDistinct` | maintenance/views.py:123-134 | every planned step is saved if and only if no two planned steps share an order |
| `Views.AutoNumberedStepsAllSaved` | maintenance/views.py:129-130 | with no order given, the steps are numbered 1..N in submission order and all are saved |
| `Views.ExplicitOrderCollides` | maintenance/views.py:129-133 | a row without an order followed by a row numbered 1 saves one step and then hits the constraint |
| `Views.NewRowsAt` | maintenance/views.py:133-134 | the i-th saved step is stored under key `base + i`, and no other key is added |
| `Views.SaveRow` | maintenance/views.py:124-134 | one pass of the loop either extends the saved prefix by the row's planned step, or reports the insert the constraint refused, at the first clash |
| `Views.SaveSteps` | maintenance/views.py:121-134 | the loop saves exactly the planned steps before the first clash, under fresh keys, reports completion exactly when none clashes, and keeps every constraint |
| `Views.ReplacedSteps` | maintenance/views.py:283-300 | after an update, the log's steps are exactly the newly inserted rows and every other log's steps are unchanged |
| `Views.ValidateLogForm` | maintenance/views.py:106-109 | the form is accepted exactly when `LogFormValid` holds: the fields are valid, the equipment exists and `clean` accepts the zone; the accepted zone is the inherited one; each error names its cause |
| `Views.LogCreate` | maintenance/views.py:103-165 | a GET or an invalid form writes nothing; a valid POST inserts the log with the requester as author and the planned steps before the first clash, and reports `Saved` exactly when all were saved, else `SaveFailed` |
| `Views.LogUpdate` | maintenance/views.py:267-342 | a missing log, a non-author, a GET or an invalid form writes nothing; otherwise the log is replaced (author and creation time kept), its old steps are deleted, the planned steps before the first clash are inserted, and the outcome is `Crashed` on a clash |
| `Views.LogDelete` | maintenance/views.py:347-361 | only the author's POST deletes, removing the log and exactly its steps; every other case writes nothing |
| `Views.EquipmentDelete` | maintenance/views.py:366-394 | deletes if and only if the equipment exists, the requester has a log on it (`LoggedBy`), and no log on it has another or no author (`LoggedByOthers`); otherwise it writes nothing and names the reason |
| `Views.EquipmentDeleteOnlyOwnLogs` | maintenance/views.py:381-391 | when the deletion is allowed, every log that referenced the equipment was the requester's |
| `Listing.IdsBelow` | maintenance/views.py:44-48 | enumerates each existing log below the key bound exactly once |
| `Listing.Filtered` | maintenance/views.py:50-73 | keeps exactly the logs that pass every switched-on filter (`Matches`: the ten-column `icontains` search of `SearchMatches`, built on `Lower`, `Contains` and `IContains`, zone `iexact`, difficulty, own logs), without adding repeats |
| `Listing.InsertByAge` | maintenance/views.py:47 | inserting into the ordered list adds exactly that one entry |
| `Listing.InsertByAgeNewestFirst` | maintenance/views.py:47 | inserting into a newest-first list keeps it newest first |
| `Listing.SortByAge` | maintenance/views.py:47 | the sorted list is a permutation of its input |
| `Listing.SortByAgeNewestFirst` | maintenance/views.py:47 | the sorted list is ordered by creation time, newest first |
| `Listing.LogListCorrect` | maintenance/views.py:44-73 | the query set `LogList` holds each matching log exactly once and nothing else, newest first |
| `Listing.StepResultMatchListedOnce` | maintenance/views.py:50-62 | a log found through a step result is listed exactly once, which is what `.distinct()` ensures |
| `Listing.NumPages` | maintenance/views.py:75 | one page for an empty list; otherwise just enough pages of 10 to hold the list, the last one non-empty |
| `Listing.PageNumber` | maintenance/views.py:76 | a page in range is kept, a non-integer page gives page 1, and any other page gives the last page |
| `Listing.Page` | maintenance/views.py:75-76 | at most 10 entries, all from the list, and a non-empty page for a non-empty list |
| `Listing.PageHolds` | maintenance/views.py:75-76 | entry i of the list is entry `i % 10` of page `i / 10 + 1`, so the pages cover the list without gaps or overlaps |
| `Admin.ZoneColumn` | maintenance/models.py:92-96 | a null zone cannot be stored, text is stored as is, a non-negative integer is stored as a numeral that reads back as that integer, and a negative one as `-` followed by the numeral of its magnitude (Python's `str`) |
| `Admin.ApplyLogDefaults` | maintenance/admin.py:56-60 | the requester becomes the author only when there is none; a `None` or `0` zone takes the equipment's non-empty zone, any text zone is kept, and no other field changes |
| `Admin.AdminKeepsEmptyTextZone` | maintenance/admin.py:59-60 | where `clean` would fill an empty zone from the equipment, the admin hook does not treat it as missing |
| `Admin.SaveLogModel` | maintenance/admin.py:56-61 | the instance gets the defaults of `ApplyLogDefaults` (author when unset, the equipment's zone for a `None`/`0` zone) and keeps every other field; a null zone then fails NOT NULL and writes nothing; otherwise the instance's row is inserted under a fresh key, or replaces the changed log, whose stored creation time the change instance carries, so the creation time is kept |
| `Admin.SaveStepModel` | maintenance/admin.py:82-85 | the requester becomes the performer only when there is none; the insert or update fails exactly when another step of the log has the order, and writes nothing then |
| `Admin.MarkLamChecked` | maintenance/admin.py:63-67 | exactly the selected existing logs get the flag, nothing else changes, and the count is the number of selected rows that exist |

## Left out

- Framework field validation of `MaintenanceLogForm` and `StepFormSet` is one boolean, `fieldsValid`. It covers required fields, choices, and the formset's own duplicate-order and database uniqueness checks. The model's `LogFormValid` adds to it only the equipment lookup and `clean`.
- Step rows are the formset's cleaned data. An untouched extra row has an empty action. `performedBy` is that of the step instance behind the row.
- `Views.LogUpdate`: on update, the source re-saves an edited step instance with its old primary key after deleting it. The model gives every saved step a fresh key. Keys differ, contents are the same.
- The `DELETE` test in the update loop is not modelled. The formset is built with `can_delete=False`, so that test never fires.
- Authentication, `login_required`, HTTP method restrictions and rate limiting are not modelled. The acting user is a parameter.
- Rendering, redirects and flash messages are left out. Each becomes a value of `Outcome` or `QuickAddResult`.
- Concurrency is left out, including the quick-add branch where the conflicting row has vanished after the IntegrityError. That branch needs a concurrent writer.
- The clock is a parameter (`now`). `updated_at` columns are not modelled.
- The `AUTO-` prefix query follows SQLite, the configured database, whose `LIKE` ignores ASCII case. A database reached through `DATABASE_URL` with a case-sensitive `LIKE` (PostgreSQL) would skip tags such as `auto-x AUTO-42` that the model scans.
- Text is ASCII. Python's Unicode white space, `\w` and case mapping are limited to ASCII characters.
- `max_length` limits other than the zone's are not modelled. The bounds of `PositiveSmallIntegerField` are not modelled either.
- `Listing.LogListCorrect`: Django leaves the order of logs with equal creation times unspecified. The model fixes one order (insertion order) and proves only newest-first.
- `Listing.PageNumber`: the `page` parameter is already parsed. A non-integer is `None`.
- The user table used by the search is a parameter of the list query. Users are otherwise only ids.
- `Admin.SaveLogModel`, `Admin.SaveStepModel`: the admin's own form validation runs before the hooks and is not modelled. The hooks receive an unsaved instance.
- Strip: its own contract states the shape of the result (empty exactly for white space, non-space ends); that only outer white space is removed is stated by `Text.StripIsSlice`, which keeps each use of `Strip` cheap to verify.
- FilledForms: its own contract states that exactly the filled rows are kept; that they keep their submission order is stated by `Views.FilledFormsAppend`.
- KeepZoneChars: its own contract states which characters remain; that every zone character remains, in order, is stated by `QuickAdd.KeepZoneCharsFilters`.
- The column defaults `Step.order = 1` and `MaintenanceLog.lam_checked = False` are not modelled as constants. No modelled write relies on them: the step formset and the log form always submit `order` and `lam_checked`, and the admin hooks receive an instance whose fields the admin form has filled. `Equipment.status` defaults to active, and the quick-add row states it (`QuickAdd.QuickRow`).
- `QuickAdd.AddEquipment`: it states the response and the (name, zone) reuse rule. The inserted row's tag and the frame of the write are stated on `QuickAdd.CreateOrReuse`.
- The read-only views (`log_detail`, `home`, `about`) and `signup` are not part of this model.

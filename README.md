# Audit back end: plans, audit duration and affectations

This project models the core of the Audit management back end in Dafny. The back end is a FastAPI and SQLAlchemy service, and the model covers three parts of it.

- **Remediation plans.** A plan reference is `year_L_NN`. The year holds 26 letters of 99 numbers each, so 2574 plans at most. The plan model's `before_insert` listener overwrites a new plan's ref with this formula. Plans are imported from a spreadsheet:
  - rows without a ref or a realisation date are dropped;
  - the remaining rows are grouped by ref in first-seen order;
  - each group becomes one plan in its own transaction, all or nothing, with one vulnerability per row.

  The model also covers the vulnerability summary and the remediation rate, the partial update of a plan, the filtered listing, and the flattening done by the spreadsheet export.
- **Audit duration.** An audit carries a state (`etat`), an optional armed clock (`start_time`), the days worked so far (`total_duration`) and the last pause time. Settling books the time elapsed since the clock was armed. Changing the state settles first. A read route reports the live duration.
- **Affectations.** An assignment names auditors, found by email or created, and target IPs, found by address or created. A newly created IP gets the ports listed with it. Auditors can also be deleted, which takes them off every affectation, or edited.

Modules, one per file:

- `Common`: the `Option` type, dates, Python truthiness, field patching.
- `PlanRef`: the reference formula and its parser.
- `Vulnerabilities`: the summary and the remediation rate.
- `Plans`: the plan record, counting by year, table invariants.
- `PlanListener`: the `before_insert` listener, as a method on a pending plan object.
- `PlanImport`: dropping incomplete rows, grouping, and the per-group transaction.
- `PlanStore`: a `Store` class over the plan table (import, update, filter, export).
- `AuditDuration`: an `Audit` class with the settle method, the state change, the live read, and a corrected state change.
- `Affectations`: a `Registry` class over the auditor, IP, port and affectation tables.

Conventions:

- Instants are whole seconds. Durations are real numbers of days, so adding durations is exact.
- The spreadsheet library's date parser is a parameter, `(cell, dayfirst) -> Option<Date>`.
- The PDF path is a parameter, and so is the current time.
- An HTTP 404 becomes `None` or a `NotFound` outcome.

## Model

| member | source | states |
|---|---|---|
| PlanRef.GeneratePlanRef | backend/services/plan.py:27-33 | Fails exactly when the year already holds 2574 plans; otherwise the ref is five characters longer than the year's digits (`_`, a letter, `_`, two digits) |
| PlanRef.GeneratedShape | backend/services/plan.py:27-33 | A generated ref is well formed; its number is `count % 99 + 1`, always in 1..99; its letter is the `count / 99`-th letter from `A` |
| PlanRef.ParseGenerated | backend/services/plan.py:31-33 | Parsing a generated ref gives back the year and the count it was generated from |
| PlanRef.GenerateInjective | backend/services/plan.py:27-33 | Distinct (year, count) pairs below capacity give distinct refs |
| PlanRef.FirstReferencesOfAYear | backend/services/plan.py:27-33 | For 2024: counts 0, 98, 99, 149 and 2573 give `2024_A_01`, `2024_A_99`, `2024_B_01`, `2024_B_51` and `2024_Z_99`; count 2574 fails |
| PlanRef.DecimalRoundTrip | backend/services/plan.py:33 | The decimal rendering of the year parses back to the year |
| Plans.CountInYear | backend/services/plan.py:23-25 | Never more than the number of plans, and equal to it only when every plan is dated in that year |
| Plans.CountInYearAppend | backend/services/plan.py:23-25 | Storing one plan raises a year's count by one when the plan is dated in that year, and leaves it unchanged otherwise |
| Plans.AppendKeepsInvariant | backend/models/plan.py:9-10 | Appending a plan with the next id and a ref not yet stored keeps ids distinct and below the counter, and refs unique |
| PlanListener.GenerateRef | backend/models/plan.py:27-55 | With a realisation date below capacity, overwrites the target's ref with the formula's ref for the year's count; a missing date or a full year raises and leaves the target as it was |
| PlanListener.ListenerRefShape | backend/models/plan.py:43-53 | The listener's ref has a number in 01..99 and parses back to the year and the count |
| Vulnerabilities.ComputeVulnerabilitySummary | backend/services/plan.py:359-367 | `total` is the number of vulnerabilities; each of the four counts is the number with exactly that severity; the four counts never exceed the total |
| Vulnerabilities.OccurrencesOfSeverities | backend/services/plan.py:360 | For a non-empty severity, the Counter over the truthy severities counts it exactly as many times as vulnerabilities carry it |
| Vulnerabilities.FourSeveritiesBound | backend/services/plan.py:360-366 | The counts of four distinct severities add up to at most the number of vulnerabilities |
| Vulnerabilities.EmptySummary | backend/services/plan.py:359-367 | No vulnerabilities give an all-zero summary |
| Vulnerabilities.SummaryAdditive | backend/services/plan.py:359-367 | The summary of two concatenated lists is the field-by-field sum of their summaries |
| Vulnerabilities.ComputeTauxRemediation | backend/services/plan.py:369-373 | 0.0 when no percentage is present; otherwise the rate times the number of present percentages is their sum (the mean) |
| Vulnerabilities.TauxIgnoresMissing | backend/services/plan.py:370 | Vulnerabilities without a percentage do not change the rate |
| Vulnerabilities.TauxInRange | backend/services/plan.py:369-373 | When every present percentage is in 0..100, so is the rate |
| Vulnerabilities.PercentagesAppend | backend/services/plan.py:370 | The present percentages of a concatenation are those of each part in order |
| PlanImport.DropIncomplete | backend/services/plan.py:56 | Keeps exactly the rows with both a ref and a realisation date, never more rows than given |
| PlanImport.DropIncompleteAppend | backend/services/plan.py:56 | Dropping a concatenation is dropping each part and concatenating: rows keep their order and multiplicity |
| PlanImport.DropIncompleteSingle | backend/services/plan.py:56 | A single row is kept exactly when it has both a ref and a realisation date |
| PlanImport.DistinctRefsNoDuplicates | backend/services/plan.py:58-60 | The group keys contain each ref once |
| PlanImport.DistinctRefsMembers | backend/services/plan.py:58-60 | A ref is a group key exactly when some row carries it |
| PlanImport.RowsWithRefMembers | backend/services/plan.py:58-60 | A group holds exactly the rows whose ref is its key |
| PlanImport.KeysHaveRows | backend/services/plan.py:58-60 | Every group key has at least one row |
| PlanImport.NoRowsOutsideKeys | backend/services/plan.py:58-60 | A ref that is not a key has no rows |
| PlanImport.GroupMapStep | backend/services/plan.py:59-60 | One more row leaves the dictionary unchanged when it has no ref, appends it to its ref's group when the key exists, and opens a new group otherwise |
| PlanImport.GroupRows | backend/services/plan.py:58-60 | The loop builds keys in first-seen order without duplicates, and the dictionary from each key to its rows in row order |
| PlanImport.RowInExactlyOneGroup | backend/services/plan.py:58-60 | Each row with a ref lies in the group of its ref and in no other group |
| PlanImport.GroupsPartitionRows | backend/services/plan.py:58-60 | The group sizes add up to the number of rows |
| PlanImport.PlanOfGroup | backend/services/plan.py:63-104 | A group is created exactly when its first row's date parses day-first, the year has room, its optional dates parse and the generated ref is not stored. The plan then takes the next id, the generated ref, the first row's application, types, security level and comments, the parsed realisation, closing and report dates of the first row, one vulnerability per row, and the summary and rate of those vulnerabilities |
| PlanImport.ImportGroupsCompose | backend/services/plan.py:62-110 | Importing two key lists in turn is importing their concatenation |
| PlanImport.ImportSkipsRolledBackGroup | backend/services/plan.py:108-110 | The import with a group that rolls back gives the same table as the import without that group |
| PlanImport.ImportKeepsCommitted | backend/services/plan.py:62-110 | The plans stored before the import stay, in order, a prefix of the table |
| PlanImport.ImportKeepsInvariant | backend/services/plan.py:62-110 | The import keeps ids distinct and below the counter and refs unique |
| PlanImport.ImportedPlansFromGroups | backend/services/plan.py:62-106 | Every plan the import adds comes from one group: it carries that group's realisation date, its first row's application, types and security level, exactly one vulnerability per row of the group and a well-formed generated ref |
| PlanStore.PatchPlan | backend/services/plan.py:292-316 | Each of the eleven plan columns takes the update's value when that field is set and keeps its old value when it is not; the id never changes. Without a list, the vulnerabilities stay and the summary becomes the given text only when set. A supplied list replaces the old one, and the summary (total = its length) and the rate are recomputed from it |
| PlanStore.PatchIdempotent | backend/services/plan.py:296-297 | Applying the same update twice gives the plan that applying it once gives |
| PlanStore.EmptyUpdateIsIdentity | backend/services/plan.py:292-297 | An update with no field set leaves the plan unchanged |
| PlanStore.Store.UpdatePlan | backend/services/plan.py:285-328 | An unknown id gives not found with nothing changed. A ref taken by another plan fails and rolls back. Otherwise only that plan is replaced by its patched version |
| PlanStore.Store.ProcessUploadedPlan | backend/services/plan.py:35-118 | A wrong extension gives unsupported format and missing columns give a processing failure, both with nothing stored. Otherwise the table is the per-group import of the complete rows, in first-seen order |
| PlanStore.Store.InsertGroups | backend/services/plan.py:62-110 | The loop over the groups leaves the table equal to the fold of the per-group transactions |
| PlanStore.GetFilteredPlans | backend/services/plan.py:229-283 | A plan is listed exactly when it is stored and passes every applied filter, never more plans than stored |
| PlanStore.GetFilteredPlansAppend | backend/services/plan.py:229-283 | Filtering a concatenation is filtering each part and concatenating: the listing keeps table order and lists each stored plan at most once |
| PlanStore.GetFilteredPlansSingle | backend/services/plan.py:229-283 | A single plan is listed exactly when it passes every applied filter |
| PlanStore.AllMatchListsAll | backend/services/plan.py:229-283 | A filter every stored plan passes lists the whole table, in order |
| PlanStore.NoFilterListsAll | backend/services/plan.py:247-283 | With no filter applied, every stored plan is listed, in order |
| PlanStore.Store.ExportPlans | backend/services/plan.py:138-220 | Nothing when no plan passes the filters; otherwise exactly the flattened lines of the selected plans, with the table unchanged |
| PlanStore.FlattenLength | backend/services/plan.py:177-220 | Each plan contributes one line per vulnerability, or one line when it has none, so there are never fewer lines than plans |
| PlanStore.FlattenCovers | backend/services/plan.py:179-220 | Every vulnerability of every selected plan appears on a line beside its plan's columns, and a plan without vulnerabilities appears on a blank line |
| PlanStore.FlattenSound | backend/services/plan.py:177-220 | Every line belongs to a selected plan and carries one of its vulnerabilities, or blanks when it has none |
| PlanStore.ThreeRowGrouping | backend/services/plan.py:56-60 | Two complete `P1` rows and one `P2` row form the groups `P1` (first two rows) and `P2` (third row) |
| PlanStore.ThreeRowImport | backend/services/plan.py:56-106 | Those rows imported into an empty table, with parsable realisation dates and empty optional dates, give two plans owning two and one vulnerabilities |
| AuditDuration.Days | backend/services/audit.py:70-71 | Elapsed days are non-negative when time moves forward, and times 86400 give the elapsed seconds |
| AuditDuration.DaysSplit | backend/services/audit.py:70-72 | Elapsed days over two consecutive intervals add up to the days over their union |
| AuditDuration.SettleRunning | backend/services/audit.py:68-73 | While "En cours" with an armed clock, settling adds the elapsed days, restarts the clock at now, and touches nothing else |
| AuditDuration.SettleStopped | backend/services/audit.py:74-80 | While "Suspendu" or "Terminé" with an armed clock, settling adds the elapsed days, disarms the clock and records now as the last pause |
| AuditDuration.SettleNoOp | backend/services/audit.py:65-80 | Without an armed clock, or in any other state, settling changes nothing |
| AuditDuration.SettleSplit | backend/services/audit.py:68-73 | While running, settling at t1 then at t2 gives the same record as settling once at t2 |
| AuditDuration.SettleIdempotent | backend/services/audit.py:65-80 | Settling twice at the same instant adds nothing the second time |
| AuditDuration.SettleMonotonic | backend/services/audit.py:69-79 | The booked total never decreases when the clock was armed no later than now |
| AuditDuration.Audit.UpdateAuditDuration | backend/services/audit.py:65-80 | The record after the in-place update is the settled record |
| AuditDuration.ChangeEtat | backend/services/audit.py:82-92 | The new state is stored verbatim, and the total is the one settled under the old state |
| AuditDuration.ChangeAuditEtat | backend/services/audit.py:82-92 | An unknown id gives not found; otherwise that audit's record becomes the state change applied to it |
| AuditDuration.SuspendKeepsClockArmed | backend/services/audit.py:82-89 | Suspending a running audit leaves its clock armed at the suspension instant |
| AuditDuration.ResumeDoesNotRearm | backend/services/audit.py:82-89 | Entering "En cours" without an armed clock leaves the clock disarmed |
| AuditDuration.GetAuditDuration | backend/routes/audit.py:36-47 | Not found exactly when the id is unknown; otherwise the total plus, while "En cours" with an armed clock, the days since the clock started |
| AuditDuration.LiveAtLeastTotal | backend/routes/audit.py:42-45 | The reading is at least the booked total when the clock was armed no later than now |
| AuditDuration.LiveUnchangedBySettle | backend/routes/audit.py:42-45 | While running, an intermediate settle does not change the reading |
| AuditDuration.ChangeEtatRearmed | backend/services/audit.py:82-92 | Corrected state change: the total settled under the old state, the new state, the clock armed at now exactly when the new state is "En cours" |
| AuditDuration.ReplayReportsWorkedTime | backend/services/audit.py:82-92 | With the corrected state change, after any sequence of changes the reading is the initial total plus exactly the time spent "En cours" |
| AuditDuration.SuspendResumeCountsPause | backend/services/audit.py:74-89 | One day running, two days suspended, one day running: as written reads 3.0 days, the corrected change reads 2.0 |
| Affectations.FindByEmail | backend/services/affectation.py:62-64 | The first auditor with the email, or none when no auditor has it |
| Affectations.FindByAddress | backend/services/affectation.py:84-86 | The first IP with the address, or none when no IP has it |
| Affectations.AttachAuditeurs | backend/services/affectation.py:61-81 | One attached id per requested auditor; the stored auditors stay a prefix; the counter grows by the number inserted |
| Affectations.AttachAuditeursFirstMatch | backend/services/affectation.py:61-81 | The j-th attached id is the id of the first auditor in the final table with the j-th email, so entries with one email share one auditor |
| Affectations.AttachAuditeursRowsFromInputs | backend/services/affectation.py:66-77 | Every inserted auditor is one request entry: its nom, prenom, email, phone and prestataire id, under the id attached to that entry |
| Affectations.AttachAuditeursCreates | backend/services/affectation.py:66-77 | An email neither stored nor named earlier in the request gets an inserted auditor carrying that entry's five fields, under the id attached to it |
| Affectations.AttachAuditeursReuses | backend/services/affectation.py:62-81 | A requested email already stored gets the first stored auditor with it |
| Affectations.AttachAuditeursFresh | backend/services/affectation.py:62-77 | Each inserted auditor's email appears on no earlier row: no stored email is inserted again, nor one email twice |
| Affectations.AttachAuditeursKeepsEmailsUnique | backend/services/affectation.py:62-77 | A table with unique emails keeps them unique |
| Affectations.AttachAuditeursIds | backend/services/affectation.py:68-77 | Auditor ids stay distinct and below the counter |
| Affectations.PortRows | backend/services/affectation.py:99-106 | One port row per requested port, in order, with consecutive ids, the requested number and status, and the new IP as owner |
| Affectations.AttachIps | backend/services/affectation.py:83-111 | One attached id per requested IP; stored IPs and ports stay prefixes; counters grow by the numbers inserted |
| Affectations.AttachIpsFirstMatch | backend/services/affectation.py:83-111 | The j-th attached id is the id of the first IP in the final table with the j-th address, so entries with one address share one IP |
| Affectations.AttachIpsRowsFromInputs | backend/services/affectation.py:88-96 | Every inserted IP carries a request entry's address, this affectation and the id attached to that entry |
| Affectations.AttachIpsKnown | backend/services/affectation.py:84-86 | When every requested address is stored, no IP and no port is inserted, and each requested IP is the first stored one with its address |
| Affectations.AttachIpsPortsOwned | backend/services/affectation.py:88-108 | Every inserted port belongs to an IP inserted by the same request, never to a reused IP |
| Affectations.AttachIpsCreates | backend/services/affectation.py:88-108 | An address neither stored nor named earlier in the request gets a new IP with a fresh id, held by this affectation, and among the inserted ports it owns exactly that entry's listed ports, in order, with consecutive ids |
| Affectations.AttachIpsPortsBelow | backend/services/affectation.py:99-106 | Every inserted port belongs to an IP id below the IP counter |
| Affectations.AttachIpsFresh | backend/services/affectation.py:84-96 | Each inserted IP's address appears on no earlier row |
| Affectations.AttachIpsIds | backend/services/affectation.py:88-107 | IP and port ids stay distinct and below their counters |
| Affectations.Registry.InsertAuditeurs | backend/services/affectation.py:61-81 | The auditor loop leaves the auditor table and ids equal to the auditor fold, other tables unchanged |
| Affectations.Registry.InsertPorts | backend/services/affectation.py:99-107 | The port loop appends exactly the port rows of the new IP |
| Affectations.Registry.InsertIps | backend/services/affectation.py:83-111 | The IP loop leaves the IP and port tables and ids equal to the IP fold, other tables unchanged |
| Affectations.Registry.CreateAffect | backend/services/affectation.py:50-118 | Appends one affectation with the next id, the request's fields, the attached auditor and IP ids in request order, and the PDF path; the other tables become the folds' results; all ids stay fresh |
| Affectations.RemoveFirst | backend/services/affectation.py:179 | Removes one occurrence when present, none otherwise |
| Affectations.RemoveFirstNoDuplicates | backend/services/affectation.py:179 | In a list without duplicates, the removed id is gone entirely |
| Affectations.RemoveFirstKeepsOthers | backend/services/affectation.py:179 | Every other id stays listed and none is added |
| Affectations.DetachLeavesNoReference | backend/services/affectation.py:178-179 | With duplicate-free association lists, no affectation lists the deleted auditor afterwards, and all other listed auditors stay |
| Affectations.RemoveAtIds | backend/services/affectation.py:181 | Deleting the row keeps ids fresh, and no row with the deleted id remains |
| Affectations.Registry.DeleteAuditeur | backend/services/affectation.py:171-184 | An unknown id gives `None` with nothing changed; otherwise returns the auditor, detaches it from every affectation and deletes its row, other tables unchanged |
| Affectations.EditKeepsIds | backend/services/affectation.py:193-197 | Editing a row keeps the id column as it was |
| Affectations.Registry.UpdateAuditeur | backend/services/affectation.py:186-203 | An unknown id gives `None` with nothing changed; otherwise only that row changes, to its id with the five requested fields |

## Findings

| source | as written | input that shows it | evidently intended | confidence | as-written member | corrected member |
|---|---|---|---|---|---|---|
| backend/services/audit.py:82-92 | `change_audit_etat` settles under the old state and then only assigns `etat`. Suspending a running audit leaves `start_time` armed. Resuming then settles under "Suspendu", which books the suspended time and disarms the clock, so nothing is counted afterwards | An audit "En cours" armed at 0 s. It is suspended at 86400 s, resumed at 259200 s and read at 345600 s: the reading is 3.0 days | The clock is disarmed on leaving "En cours" and re-armed on entering it, so the reading is 2.0 days (time actually spent running) | not executed | AuditDuration.SuspendResumeCountsPause (on AuditDuration.ChangeEtat) | AuditDuration.ChangeEtatRearmed with AuditDuration.ReplayReportsWorkedTime |

`AuditDuration.ChangeAuditEtat`, the in-place method, keeps the behaviour as written because it models the service itself. The corrected behaviour is given as the pure `ChangeEtatRearmed`, and the trace theorem is proved about it.

## Left out

- Rounding to two decimals in `compute_taux_remediation` and in the duration route is not modelled, and neither is any floating-point behaviour. Values are exact reals.
- Vulnerabilities.ComputeTauxRemediation: states the exact mean, not the mean rounded to two places.
- AuditDuration.GetAuditDuration: states the duration before `round(duration, 2)`.
- AuditDuration.Days: instants are whole seconds; sub-second parts of `total_seconds()` are not modelled.
- Reading the uploaded file, `pd.read_excel` and the NaN-to-None replacement are file I/O. The sheet arrives as a sequence of rows whose empty cells are `None`.
- `pd.to_datetime` is a parameter. The day-first flag is passed as the source passes it: `True` for the realisation date and `False` for the optional dates.
- PlanImport.PlanOfGroup: any other database error during a group's insert is not modelled. Three rollback causes are modelled: an invalid date and a full year, which the code raises, and a duplicate ref, which the database raises through the unique `ref` column.
- The `before_insert` listener recomputes the same ref from the same count that `generate_plan_ref` just used, so the import generates the ref once. The listener on its own is `PlanListener.GenerateRef`.
- The count-then-insert race between concurrent sessions and database isolation levels are concurrency, and are not modelled.
- Plan ids consumed by rolled-back inserts, which leave auto-increment gaps, are not modelled. The model hands out ids only to committed plans.
- PlanStore.ContainsIgnoreCase: lower-cases ASCII letters only. It treats `%` and `_` inside the filter text as ordinary characters, and so does not model `ilike` wildcards or database collation.
- The exact-date filters take a date, whereas the source compares a query string with a `DATE` column.
- Writing the export file (`pd.ExcelWriter`) and its time-stamped name are file I/O.
- The `vulnerabilites` parameter of `update_plan` is never read by the source, so the model has none.
- The `PlanUpdate` schema has no `vulnerabilites` field, so the list-replacement branch of `update_plan` never runs through the route as shipped. The model keeps that branch, as the service writes it, for an update that carries a list; updates built from the schema have `vulnerabilites = None`.
- The model generalises `PlanUpdate`. In the schema, application, type_application, type_audit, niveau_securite and nb_vulnerabilites are required strings, so they are always set and never cleared. Only `ref` has a default and can be left unset. The model lets every field be set or unset, and lets every optional column be cleared, except `ref`, which it only replaces.
- `serialize_plan` and the response schemas are HTTP wiring.
- The vulnerability, auditor, IP and port schema packages beyond the files listed above are not part of this model, and neither is `backend/models/auditeur.py`. Their fields are taken from the service code that uses them.
- The audit model file lacks `total_duration`, `start_time` and `last_pause_time`. The model follows the service, which uses them. `create_audit`, `get_audit` and `list_audits` are plain database reads and inserts.
- The `.first()` lookups take the first row in table order. The database promises no order without `order_by`.
- The email and address lookups compare strings exactly. A database collation that folds case or trims spaces would match more rows; the collation is not part of this model.
- Affectations.Registry.CreateAffect: does not model a commit failing. A request naming the same auditor or IP twice appends it twice to the association list, and the association tables' composite primary keys reject the second row; the model lists the id twice.
- The affectation model has no `type_audit` column, although `create_affect` passes `type_audit` to its constructor, which rejects an unknown keyword before anything is added. This is schema drift between the model file and the service; the model follows the service and stores the type, as it does for the audit duration fields.
- `generate_affect_pdf` renders HTML to a PDF file. Its path is the `pdfPath` parameter.
- `update_auditeur` and `create_auditeur` do not keep emails unique, and neither does the model. Unique emails are preserved by `create_affect` alone, as `AttachAuditeursKeepsEmailsUnique` states.
- `get_affect`, `list_affects`, `list_auditeurs`, `list_ips`, `create_auditeur` and `create_prestataire` are plain database reads and inserts.
- The demand-audit service and routes are out of scope: file saving, database inserts and PDF rendering.

# A verified model of the tax-rating bookkeeping

This Dafny project models the bookkeeping core of a Django application for Chilean
corporate tax ratings (DJ 1949 affidavit factors). It covers these parts:

- the relational schema: issuers, factor concepts, corporate events, ratings and factor
  details, with their uniqueness, one-to-one, cascade and protect rules;
- the bulk spreadsheet upload (`upload_file_view`), including its atomic rollback;
- the manual create, edit and delete views, with their per-concept factor loops;
- the two listings: the maintenance page filters and the REST endpoint's ordering and filters;
- the audit-log signal handlers;
- the small validators and access predicates;
- the two seeding management commands.

Each table is a Dafny `map` keyed by its uniqueness constraint. Uniqueness therefore
holds by construction. The remaining constraints are `Models.Valid`: unique `rut`,
distinct concept primary keys, and every foreign key pointing at an existing row.

Code that changes state step by step is imperative Dafny, proved against a specification
function over `Models.Tables`. This covers the upload loop, the factor loops, the seeding
loops and the audit signals. `Store.Database` holds one field per table, and
`Store.Database.Restore` is the rollback of a `transaction.atomic` block. Code that only
computes stays as functions with lemmas: the schema rules, the listings, the validators
and the diff.

Modules, one per file: `Common`, `Text` (digits, integer/decimal text, case, substring),
`Models`, `Store`, `Upload`, `UploadProperties` and `UploadRerun`, `RatingViews`, `Listing`, `Forms`,
`Access`, `Audit`, `Seed`, `Groups`.

Inputs that the original reads from the environment are parameters here:

- the current user, which the original reads from a thread-local;
- the parsed spreadsheet;
- the POST fields, already typed: `None` where the field is missing;
- the stored row that the pre-save signal reads;
- the rows of the listings' base query set. `Listing.RowsOf` says when such rows are the ratings of a database (one row per rating, joined with its event), and the `...ListsRatings` lemmas state the listings over a database.

## Model

| member | source | states |
|---|---|---|
| Models.EventLabelInjective | core/models.py:59-60 | Two events with the same `__str__` text are the same event. Ticker, dividend number and year can be read back from the text. |
| Models.RatingLabelInjective | core/models.py:89-90 | Two ratings with the same `__str__` text belong to the same event. |
| Models.EmptyChoicesHold | core/models.py:37-83 | The empty database keeps every market and rating state within its choices. |
| Models.DeleteRatingExact | core/models.py:94 | Deleting a rating removes exactly that rating and its own details. Issuers, concepts, events and every other rating's details are unchanged. |
| Models.DeleteRatingValid | core/models.py:94 | The rating-to-detail cascade keeps every constraint. |
| Models.DeleteEventValid | core/models.py:72 | Deleting an event cascades to its rating and that rating's details, and the result is valid. |
| Models.DeleteIssuerValid | core/models.py:42 | An issuer delete succeeds iff no event references the issuer (PROTECT). A permitted delete keeps validity. |
| Models.DeleteConceptValid | core/models.py:95 | A concept delete succeeds iff no detail references the concept (PROTECT). A permitted delete keeps validity. |
| Models.UnprotectedIssuerDeleteBreaksReferences | core/models.py:42 | Dropping a referenced issuer without the PROTECT check would break the references invariant. |
| Models.EmptyValid | core/models.py:12-100 | The empty database satisfies every constraint. |
| Store.Database.constructor | core/models.py:12-100 | A new database is empty and valid. |
| Store.Database.Restore | core/views.py:61 | Rollback puts back exactly the saved state of every table. |
| Upload.FirstMissing | core/views.py:55-58 | Returns the first required column missing from the headers, in check order. Returns none iff all four are present. |
| Upload.ComputeCreditSum | core/views.py:64-69 | The accumulation loop computes the corrected credit sum of the present "Factor 8".."Factor 19" columns, where a blank or non-numeric cell counts 0 (see Findings). |
| Upload.CreditSumOnlyPresentColumns | core/views.py:65-69 | The credit sum depends only on the cells of credit columns the sheet has. |
| Upload.CreditSumOfBlankRow | core/views.py:64-69 | A row with no credit values sums to 0. |
| Upload.FactorNumberOfFactorColumn | core/views.py:95-97 | "Factor N" parses back to N, the same way the detail loop parses its headers. |
| Upload.FactorColumnInjective | core/views.py:65-66 | Distinct numbers name distinct credit columns. |
| Upload.BlankCreditCellHidesExcess | core/views.py:68-71 | As written (NaN propagation), a sheet with factors 0.7, 0.5 and an empty cell passes the check, although its corrected sum 1.2 exceeds 1.000001. |
| Upload.CorrectedAgreesOnNumericCells | core/views.py:68-69 | When every present credit cell is numeric, the corrected sum equals the as-written sum. |
| Upload.StoreFactorsStep | core/views.py:94-107 | The header loop leaves the database exactly as `StoreFactors` specifies, or reports its error. |
| Upload.IngestRowStep | core/views.py:62-110 | One row's get-or-create and update-or-create steps on the database agree with `IngestRow`, including the created flag and every error. The credit check is the corrected one (see Findings). |
| Upload.UploadFile | core/views.py:47-110 | The view agrees with `UploadSpec` (new state and `registros_creados`). On any error the database is as before. The credit check is the corrected one (see Findings). |
| UploadProperties.StoreFactorsFrame | core/views.py:94-107 | The factor loop only adds concepts and touches only the details of the row's rating. Issuers, events and ratings are unchanged. |
| UploadProperties.StoreFactorsValid | core/views.py:100-105 | The factor loop keeps the constraints, because a missing concept is created before its detail. |
| UploadProperties.StoreFactorsStoresCell | core/views.py:94-105 | For a "Factor N" header with a non-blank numeric cell, where no other header names the same N, the detail (rating, N) holds that cell's value afterwards. |
| UploadProperties.StoreFactorsStoresHere | core/views.py:94-105 | At the one "Factor N" header with a non-blank numeric cell, concept N exists afterwards and detail (rating, N) holds the cell's value, since no later header can overwrite it. |
| UploadProperties.StoreFactorsUntouched | core/views.py:95-99 | A column whose cells are blank, or whose header is not "Factor <int>", leaves its detail as it was. |
| UploadProperties.InferCompanyTypeCases | core/views.py:74-75 | The type is 'C' iff the upper-cased text contains "CERRADA" or equals "C". It is 'A' when the column is absent and for a number, a date or an empty cell, whose text never reads so. |
| UploadProperties.IngestRowEffect | core/views.py:74-92 | A row that passes the corrected credit check (see Findings) is stored as follows. An existing issuer is reused unchanged, otherwise one is created with rut (or SIN-RUT-index) and inferred type. An existing event is reused unchanged, otherwise created, and the flag says which. The rating is BORRADOR with the row's amount (0 if absent), keeps its total, and is modified by the actor. Other ratings and their details are unchanged. |
| UploadProperties.IngestRowValid | core/views.py:74-107 | One ingested row keeps every constraint. |
| UploadProperties.IngestRowStoresFactor | core/views.py:94-105 | After a row, a uniquely named "Factor N" column with a non-blank cell has its value in the detail (rating, N). |
| UploadProperties.IngestRowEventCount | core/views.py:82-110 | The created flag is set iff the event was new. The event table grows by exactly that. |
| UploadProperties.IngestFromValid | core/views.py:62-110 | A successful row loop keeps every constraint. |
| UploadProperties.IngestFromCountsNewEvents | core/views.py:60-110 | `registros_creados` equals the number of events the batch added. Events that existed before are unchanged. |
| UploadProperties.IngestFromRejectsExcess | core/views.py:71-72 | Any row whose credit sum exceeds 1.000001 makes the row loop fail. |
| UploadProperties.UploadMissingColumn | core/views.py:55-58 | A missing required column aborts the upload with a missing-column error, before any row. |
| UploadProperties.UploadRejectsExcess | core/views.py:61-72 | An over-limit row anywhere rejects the whole upload. With `UploadFile`, nothing of the batch persists. |
| UploadProperties.UploadValidAndCount | core/views.py:60-112 | A successful upload keeps the constraints and reports exactly the number of new events. |
| UploadProperties.IngestRowChoices | core/views.py:82-92 | A row keeps every market and rating state within its choices when its "Mercado" cell is a code or the column is absent (giving ACN), because the rating is always set to BORRADOR. |
| UploadProperties.IngestFromChoices | core/views.py:62-110 | The row loop keeps the choice domains under the same condition on every row. |
| UploadProperties.UploadKeepsChoices | core/views.py:61-110 | A successful upload whose "Mercado" cells are codes, or whose sheet lacks the column, keeps every market and state within its choices. |
| UploadRerun.UploadIdempotent | core/views.py:61-110 | Uploading the same sheet again, as the same user, after a successful upload leaves every table exactly as the first upload left it and reports 0 new events. |
| UploadRerun.IngestFromAgain | core/views.py:62-110 | From any row on, a second run that is `Between` the first run's state and its final state reaches that final state and adds nothing to the count. |
| UploadRerun.IngestRowAgain | core/views.py:74-107 | On the second run a row finds its issuer and event, so `get_or_create` creates nothing (the flag is false). Its `update_or_create` of the rating and of each factor writes what the first run wrote at that row, and `Between` is kept. |
| UploadRerun.StoreFactorsAgain | core/views.py:94-105 | On a state that already has all the concepts and detail keys, the factor loop creates nothing. Each detail ends as the first run's loop left it, or unwritten on both runs. |
| UploadRerun.IngestFromGrows | core/views.py:62-110 | A successful row loop never removes an issuer, event, concept, rating or detail, and never changes a rating's total. |
| RatingViews.SyncFactorsStep | core/views.py:187-196 | The edit loop upserts each submitted factor and deletes each blank one. It ends in `SyncedDetails` over all concepts, or fails iff some submitted value is not a decimal. |
| RatingViews.SyncedAt | core/views.py:187-196 | Pointwise: a handled concept's detail exists iff its value reads as a decimal, and holds that value. Any other detail is as before. |
| RatingViews.SyncedDetailsIdempotent | core/views.py:187-196 | Running the factor sync a second time with the same submitted values changes no detail. |
| RatingViews.SyncStep | core/views.py:188-196 | Handling one more concept changes only the detail (rating, concept). |
| RatingViews.CreateFactorsStep | core/views.py:151-158 | The create loop adds exactly `NewDetails` for the submitted factors, or fails iff one does not parse. |
| RatingViews.CreateRating | core/views.py:129-158 | The create view agrees with `CreateSpec`, including the new key. On any error the database is as before (atomic). |
| RatingViews.EditRating | core/views.py:176-196 | The edit view agrees with `EditSpec`. On any error the database is as before (atomic). |
| RatingViews.DeleteRatingView | core/views.py:223-226 | The delete view agrees with `DeleteSpec`: the rating and its details go, and the event stays. |
| RatingViews.EditSpecErrors | core/views.py:176-196 | The edit fails as not-found iff the rating does not exist. It fails on a factor iff the rating exists, the amount is given, and some submitted factor is not a decimal. |
| RatingViews.EditSpecEffect | core/views.py:182-196 | After an edit: amount and editor are set, `estado` is kept when not submitted, and the total is kept. Concept c has a detail iff `factor_<pk>` is non-empty, and it holds the parsed value. Other ratings and their details are untouched. |
| RatingViews.EditSpecValid | core/views.py:182-196 | A successful edit keeps every constraint. |
| RatingViews.EditSpecIdempotent | core/views.py:182-196 | Submitting the same edit twice leaves the state the first submission left. |
| RatingViews.CreateSpecDuplicate | core/views.py:134-142 | Creating for an existing (emisor, dividend, year) fails with the unique-together error. |
| RatingViews.CreateSpecEffect | core/views.py:134-158 | A create adds the event (sequence 0, created by the actor) and its rating (total 0). It adds a detail for exactly the submitted factors, with their values. Nothing that existed changes. |
| RatingViews.CreateSpecValid | core/views.py:129-158 | A successful create keeps every constraint. |
| RatingViews.DeleteSpecKeepsEvent | core/views.py:223-226 | A delete succeeds iff the rating exists, keeps validity, and leaves the event table unchanged. |
| RatingViews.EditSpecChoices | core/views.py:182-185 | The view does not validate `estado`: an edit keeps the choice domains iff the submitted state is absent or a state code. |
| RatingViews.CreateSpecChoices | core/views.py:134-149 | A create keeps the choice domains iff the submitted market and state are codes. |
| RatingViews.DeleteSpecChoices | core/views.py:223-226 | A delete keeps the choice domains. |
| Listing.Keep | core/views.py:21-26 | A filter keeps exactly the matching rows, each as many times as it occurs in the base: membership iff in base and matching, and equal multiplicity. |
| Listing.QueryInt | core/views.py:25-26 | An integer lookup succeeds iff the text reads as an integer. Otherwise it raises. |
| Listing.KeepKeep | core/views.py:21-26 | Two successive filters equal one filter with the conjunction. |
| Listing.MaintenanceListConjunctive | core/views.py:17-26 | The page equals the base narrowed by the conjunction of each non-empty parameter's predicate (market equality, case-insensitive ticker substring, year equality). It fails iff the period is non-empty and not an integer. |
| Listing.MaintenanceListUnfiltered | core/views.py:17-26 | With no parameter the base list comes back unchanged. |
| Listing.OrderByPaymentDesc | core/api_views.py:30 | The endpoint's base is a permutation of the base rows, ordered by payment date with the newest first. |
| Listing.InsertKeepsOrder | core/api_views.py:30 | Inserting into a list ordered newest-first keeps it ordered. |
| Listing.KeepKeepsOrder | core/api_views.py:40-43 | Filtering keeps the newest-first order. |
| Listing.ApiQuerysetSpec | core/api_views.py:35-45 | Lists exactly the base rows passing the given ticker and year filters, with their multiplicity in the base, newest-first: the ordered base filtered by the conjunction. With neither parameter it lists the ordered base. It fails iff the year is given and not an integer. |
| Listing.ApiQuerysetIsKeep | core/api_views.py:35-45 | The endpoint's two optional filters, applied one after the other, equal one conjunctive filter over the base ordered newest-first. The query fails iff a non-empty year does not parse as an integer. |
| Listing.KeepRowsOf | core/views.py:14-26 | Filtering the rating rows of a database lists each rating at most once, and the rating of event k iff its row matches. |
| Listing.MaintenanceListsRatings | core/views.py:14-26 | Over the rating rows of a database, the page shows each rating at most once, and the rating of event k iff it passes every non-empty filter. |
| Listing.ApiListsRatings | core/api_views.py:30-45 | Over the rating rows of a database, the endpoint lists each rating at most once, newest payment first, and the rating of event k iff it passes the given filters. |
| Forms.CleanMonto | core/forms.py:30-34 | Rejects iff the amount is present and negative. Otherwise returns it unchanged. |
| Forms.CleanMontoBoundary | core/forms.py:32-34 | Zero and a missing amount are accepted. Cleaning is idempotent. |
| Access.GroupRequired | core/decorators.py:10-26 | The view runs, and its result is returned unchanged, iff the user is allowed. Otherwise permission is denied. |
| Access.GroupAllowedCases | core/decorators.py:13-26 | An unauthenticated user is denied. A superuser is allowed. A non-superuser is allowed iff the groups intersect. An empty list denies non-superusers. |
| Access.GroupAllowedMonotone | core/decorators.py:19-23 | Adding required names never denies a user who was allowed. |
| Access.HasGroupIsGroupAllowed | core/templatetags/core_extras.py:10-12 | For an authenticated user, `has_group` is a one-name `group_required`: superuser, or exact group membership. |
| Access.LookupFactor | core/templatetags/core_extras.py:20-22 | Returns "" for absent or empty post data and for a missing key. Otherwise it returns the value backing "factor_<key>". |
| Access.LookupFactorShowsSubmitted | core/templatetags/core_extras.py:20-22 | The template shows the same factor text the views read. It is non-empty iff the views treat it as submitted. |
| Audit.RecordedUser | core/signals.py:32-35 | The recorded user is the current user's id iff there is a current user and it is authenticated. Otherwise it is None. |
| Audit.CreateChanges | core/signals.py:52-53 | On create, every field is recorded as old null and new str(value). |
| Audit.DiffExact | core/signals.py:41-49 | A key is reported iff it is in the new state and differs from `old.get(key)`, with both values as text. Old-only keys are not reported. |
| Audit.DiffEmpty | core/signals.py:41-51 | The diff is empty iff the new state agrees with the old on every one of its keys. |
| Audit.DiffOfSameState | core/signals.py:41-51 | A state equal to the snapshot on its keys produces no change. |
| Audit.DiffRecoversNew | core/signals.py:41-49 | A reported entry carries the new value. An unreported key kept its old value. |
| Audit.ComputeChanges | core/signals.py:42-48 | The loop over `new_state.items()` builds exactly `Diff`. |
| Audit.SaveRecordCases | core/signals.py:26-60 | Excluded models and unchanged updates write no record. Create records all fields. An update with a snapshot records exactly the diff, with the given user, model and key. |
| Audit.DeleteRecordCases | core/signals.py:63-81 | A non-excluded delete writes exactly one record: DELETE, with the pre-delete snapshot. |
| Audit.Instance.PreSave | core/signals.py:12-23 | The snapshot is the stored row when pk is non-zero and the row exists, and empty otherwise. Excluded models leave `_old_state` alone. |
| Audit.PreSaveSnapshot | core/signals.py:16-23 | Returns the stored row for a truthy pk that exists. Otherwise it returns the empty map. |
| Audit.AuditTrail.PostSave | core/signals.py:26-60 | Appends exactly the record `SaveRecord` gives, or nothing. |
| Audit.AuditTrail.PostDelete | core/signals.py:63-81 | Appends exactly the record `DeleteRecord` gives, or nothing. |
| Audit.ResaveIsSilent | core/signals.py:16-51 | Re-saving a row with no field changed writes no record. |
| Seed.FactorsContiguous | core/management/commands/seed_factores.py:8-39 | The catalogue lists columns 8..37 in order, each exactly once. |
| Seed.SeedFromFrame | core/management/commands/seed_factores.py:48-52 | A run touches only concepts, adds exactly the listed columns, and hands out keys only for missing ones. |
| Seed.SeedFromKeeps | core/management/commands/seed_factores.py:49-52 | Existing concepts keep their key and type. Unlisted ones are untouched. |
| Seed.SeedFromDescribes | core/management/commands/seed_factores.py:49-52 | Each listed column ends with its listed description, overwriting the old one. |
| Seed.SeedFromIdempotent | core/management/commands/seed_factores.py:48-52 | With distinct columns, seeding twice is seeding once. |
| Seed.SeedIdempotent | core/management/commands/seed_factores.py:44-52 | Running `handle` twice gives the state of running it once. |
| Seed.SeedFromValid | core/management/commands/seed_factores.py:48-52 | Seeding keeps every constraint. |
| Seed.SeedSpecCovers | core/management/commands/seed_factores.py:8-52 | After `handle`: columns 8..37 exist with their listed descriptions, other concepts are untouched, and validity is kept. |
| Seed.SeedEntries | core/management/commands/seed_factores.py:48-52 | The upsert loop leaves the database as `SeedFrom` specifies. |
| Seed.SeedFactors | core/management/commands/seed_factores.py:44-52 | `handle` leaves the database as `SeedSpec` specifies. |
| Groups.EnsureAll | core/management/commands/create_groups.py:16-17 | The names afterwards are the old names plus the required ones. |
| Groups.CreatedFlagsExact | core/management/commands/create_groups.py:17-21 | With distinct names, each name is reported as created iff it did not exist before. |
| Groups.CreateGroupsIdempotent | core/management/commands/create_groups.py:16-17 | A second run changes nothing and reports nothing as created. |
| Groups.GroupTable.EnsureGroups | core/management/commands/create_groups.py:16-21 | The loop ends in `EnsureAll` with the `CreatedFlags` reports. |
| Groups.GroupTable.CreateGroups | core/management/commands/create_groups.py:8-21 | All three role groups exist afterwards. No other name is added. A name is reported as created iff it was missing. |
| Text.ParseIntOfIntToString | core/views.py:97 | Integer text parses back to its integer. |
| Text.ParseDecimalOfIntToString | core/views.py:190-193 | Integer text reads back as the same decimal. |

## Left out

- Reading the `.xlsx` file: pandas parsing, header stripping and numeric-text parsing. The sheet arrives as headers plus typed cells (empty, number, text, date).
- Two headers that are equal after stripping (core/views.py:53) are read as one cell in the model. In the view, `row.get` and `row[...]` then return a pandas Series: the credit sum raises at `or 0`, and the factor loop skips the cell through its inner `except`.
- A text cell that spells an ISO date ("Fecha") or a number is accepted by the view, because Django's field parsing reads it. `pd.read_excel` is called without `parse_dates`, and pandas converts numeric text only when the whole column reads as numeric. The model treats such a cell as neither numeric nor a date, so the row is a row error, and the cell counts 0 in the credit sum.
- `str()` of a numeric or date cell: when such a cell fills a text field (ticker, RUT, market), the model treats it as a row error.
- The upload model applies the corrected credit check of the Findings table, where a blank or non-numeric credit cell counts 0. On the Findings input the model rejects a row that the view as written accepts. `Upload.BlankCreditCellHidesExcess` states the as-written behaviour.
- Case folding is ASCII-only (`Text.UpperStr`, `Text.LowerStr`, `Text.ContainsIgnoreCase`). Python's `str.upper` and the database's `icontains` also fold non-ASCII letters. This affects `Upload.InferCompanyType` and `Listing.TickerContains`.
- UploadRerun.UploadIdempotent: stated for a second upload by the same user. A re-upload by another user rewrites `modificado_por` on every rating the sheet names, and is otherwise the same.
- Floating-point arithmetic: amounts and factors are exact reals. NaN appears only in the as-written half of the finding below.
- The `max_digits`, `decimal_places` and `max_length` limits of the fields are not enforced.
- Choice domains are not enforced on save. Django does not enforce them either, so `mercado` and `estado` are free strings; `tipo_sociedad` is an enum because only the upload creates issuers.
- Parsing of the POST text by the model fields (DateField, DecimalField, PositiveIntegerField) is not modelled, except for factor values. The create and edit views use no Django form: they pass the raw POST strings to the model fields (core/views.py:134-148, 182-193). Text such as "abc" then raises, and core/views.py:162 catches the error. In the model the fields arrive typed, with `None` for a missing field.
- The create form names its issuer by primary key. The model names it by ticker, which is the issuer table's key here.
- Python `int()` also accepts whitespace, underscores and non-ASCII digits; the model's integer text is an optional sign plus ASCII digits. Decimal exponents, "inf" and "nan" are not read either.
- The order in which the create and edit views iterate over concepts is not modelled. The loops take concepts in any order, which does not change the outcome.
- HTTP handling, `messages`, `render`/`redirect`, `get_object_or_404` (modelled as a not-found error) and `login_required`.
- The thread-local current user (core/middleware.py) is an explicit parameter.
- `model_to_dict` and `DjangoJSONEncoder`: field values arrive already as text or `None`. The source compares the unconverted Python values (core/signals.py:44), so a raw POST string compared with a stored `Decimal` reads as a change. The edit view assigns the POST text of the amount to a DecimalField (core/views.py:182), so the source records an amount change on every edit. Under the model's text values, `Audit.ResaveIsSilent` says that such a save writes nothing.
- Timestamps, IP addresses and `ContentType` resolution of audit records.
- The audit handlers are modelled on their own, not wired into the store operations.
- `HistoricalRecords`/simple_history and `history_calificacion_view`.
- Serializers, the admin site, URL routing, `filters.py` and the other viewsets.
- `auditoria_global_view`, referenced by the URL configuration, is not part of this model.
- `seed_factores` cannot fail in the model, so its `transaction.atomic` adds nothing.

## Findings

| source | as written | input that shows it | evidently intended | confidence | as-written member | corrected member |
|---|---|---|---|---|---|---|
| core/views.py:68-71 | `pd.to_numeric(cell, errors='coerce') or 0` leaves NaN as NaN, because NaN is truthy. One empty or non-numeric cell in a present credit column makes the sum NaN, and `NaN > 1.000001` is false, so the row passes the check. | Columns "Factor 8", "Factor 9", "Factor 10" holding 0.7, 0.5 and an empty cell: the true sum is 1.2 and the row is accepted. | A non-numeric cell counts as 0, so the row is rejected for exceeding 1.000001. | high (not executed) | Upload.BlankCreditCellHidesExcess | Upload.CreditSum |

# Document registry rules, in Dafny

This project models the server of a small document registry. It is an
Express and Sequelize application in which signed-in users:

- keep documents, each in a shared category and of a shared document type;
- log registrations against a document;
- upload files to Dropbox, with each upload logged as a numbered version.

The model covers what the route handlers decide and what they write:

- the six tables (users, categories, document types, documents,
  registrations, file versions), held by one store class whose methods are
  the handlers;
- the checks each handler runs before it writes, and the status and message
  it answers with;
- the registration-number rules: a supplied number must be free, and
  generated `DOC-<time>-<random>` candidates are drawn until one is free;
- owner scoping: another user's document looks exactly like a missing one;
- the version log: each upload appends version *count + 1*;
- the deletion guards on categories and types, and the cascades from users
  to documents and from documents to registrations and versions;
- the startup seeding of default categories and types;
- the `Authorization` header check, the token fallback, the storage-failure
  classifier, and the client-side email and password check.

Every handler method:

- states its whole new state;
- leaves the store unchanged on every refusal;
- keeps the store `Consistent`:
  - emails are unique;
  - assigned registration numbers are unique;
  - every document's owner, category and type exist;
  - every registration and version belongs to an existing document;
  - every category's parent exists (the `parentId` foreign key);
  - each document's versions are numbered 1, 2, 3, … in order.

The read-only handlers are functions of the database.

Module layout:

| file | module | what it holds |
|---|---|---|
| `optionals.dfy` | `Optionals` | `Option` |
| `strings.dfy` | `Strings` | substring search, `split(" ")`, upper-casing |
| `radix.dfy` | `Radix` | `toString(radix)` and decimal parsing |
| `js_values.dfy` | `JsValues` | JSON body values, truthiness, `Number(x)` |
| `tables.dfy` | `Tables` | auto-increment tables and their operations |
| `records.dfy` | `Records` | the row types of the Sequelize models |
| `responses.dfy` | `Responses` | the handler outcomes |
| `name_order.dfy` | `NameOrder` | `ORDER BY name ASC` |
| `accounts.dfy` | `Accounts` | users, email lookup and login |
| `catalog.dfy` | `Catalog` | categories, types, reference counts, seeding |
| `document_rules.dfy` | `DocumentRules` | owner scoping, numbers, versions, list filter, create and update checks |
| `registration_numbers.dfy` | `RegistrationNumbers` | `buildRegistrationNumber` |
| `storage_gateway.dfy` | `StorageGateway` | token fallback and failure classification |
| `integrity.dfy` | `Integrity` | the database value, `Consistent`, one lemma per kind of write |
| `queries.dfy` | `Queries` | the read-only handlers |
| `auth_middleware.dfy` | `AuthMiddleware` | the `Authorization` header check |
| `credentials_form.dfy` | `CredentialsForm` | the Register and Login form check |
| `registry.dfy` | `Registry` | the `Store` class and its handler methods |

External effects become parameters:

- **bcrypt.** `bcrypt.hash` is a function `string -> string`, and
  `bcrypt.compare` is a predicate.
- **JWT.** `jwt.sign` is a function of the payload (id, email).
  `jwt.verify` is an oracle that yields the payload's user id, or nothing
  when verification throws.
- **The clock and `Math.random()`.** Each call of
  `buildRegistrationNumber` becomes one `Draw`: a timestamp plus the
  base-36 digits of the fraction.
- **The Dropbox SDK.** It is a function from (token, path) to a reply,
  `Done(link)` or `Failed(status, summary)`.
- **The `DROPBOX_ACCESS_TOKEN` environment variable.** It is a parameter.

## Model

| member | source | states |
|---|---|---|
| Radix.ToString | server/src/routes/documents.js:12 | `n.toString(base)` is a non-empty string of lower-case base digits |
| Radix.ParseToString | server/src/routes/documents.js:54-55 | reading back the decimal form of a natural gives that natural (round trip) |
| Radix.ToStringInjective | server/src/routes/documents.js:12 | distinct naturals have distinct base-`b` forms |
| Strings.IncludesIff | server/src/routes/documents.js:271 | `includes` holds exactly when the pattern occurs at some position |
| Strings.IncludesEmbedded | server/src/routes/documents.js:271 | a string containing the pattern anywhere includes it |
| Strings.JoinSplit | server/src/middleware/auth.js:10 | joining the pieces of `split(" ")` with spaces gives back the header |
| Strings.SplitPiecesHaveNoSpace | server/src/middleware/auth.js:10 | no piece of `split(" ")` contains a space |
| Strings.SplitJoin | server/src/middleware/auth.js:10 | splitting space-free pieces joined by spaces gives back the pieces |
| Strings.UpperCase | server/src/routes/documents.js:12-13 | `toUpperCase()` keeps the length and maps each character |
| JsValues.IntegerOf | server/src/routes/documents.js:54-62 | an id is accepted exactly when `Number(v)` is an integer, and then it is that integer |
| JsValues.DecimalIdRoundTrip | server/src/routes/documents.js:54-55 | an id sent in decimal reads back as that id |
| JsValues.CreateIsUpdateOfNull | server/src/routes/documents.js:84-93 | a nullable column receives from `create` what `update` would write over null: the string when given, null otherwise |
| NameOrder.SortByName | server/src/routes/categories.js:12 | the listing is a permutation of the rows, ordered by name |
| NameOrder.InsertByName | server/src/routes/documentTypes.js:11 | inserting into a name-ordered list keeps it ordered and adds exactly that row |
| NameOrder.NameLeTotal | server/src/routes/categories.js:12 | any two names are comparable |
| NameOrder.NameLeTransitive | server/src/routes/categories.js:12 | the name order is transitive |
| Tables.Find | server/src/routes/categories.js:40 | `findByPk` returns a row with that id, or none when no row has it |
| Tables.Where | server/src/routes/documents.js:21-33 | `findAll({ where })` keeps exactly the rows that match |
| Tables.Count | server/src/routes/categories.js:58-59 | `count(...) > 0` exactly when some row matches |
| Tables.NewestFirst | server/src/routes/documents.js:39 | `createdAt DESC` reverses the insertion order |
| Tables.NewestFirstFacts | server/src/routes/documents.js:39 | newest first lists the same rows with strictly decreasing ids |
| Tables.Empty | server/src/models/Document.js:7-11 | a new table is empty and well-formed |
| Tables.GetIff | server/src/models/Document.js:7-11 | with distinct auto-increment ids, lookup by id finds exactly the stored row |
| Tables.InsertFacts | server/src/models/Document.js:7-11 | `create` stores the row under the next id and changes no other id |
| Tables.PutFacts | server/src/routes/documents.js:167-175 | `instance.update` rewrites that row only and keeps the table well-formed |
| Tables.PutRows | server/src/routes/documents.js:167-175 | after `update`, the rows are the other rows plus the rewritten one |
| Tables.RetainFacts | server/src/models/index.js:21-25 | a cascade keeps exactly the rows its filter accepts |
| Tables.RemoveFacts | server/src/routes/categories.js:68 | `destroy` removes that id only |
| Tables.WhereIncreasing | server/src/routes/documents.js:32-40 | filtering keeps the rows in id order |
| Tables.WhereAppend | server/src/routes/documents.js:282-288 | filtering a table with one more row adds that row exactly when it matches |
| Tables.WhereWhere | server/src/models/index.js:24 | filtering by a weaker filter first changes nothing |
| Accounts.UserByEmail | server/src/routes/auth.js:15 | the lookup returns a user holding the email, and none exactly when no user holds it |
| Accounts.UniqueEmailLookup | server/src/routes/auth.js:40 | with unique emails, the lookup finds exactly the user holding the email |
| Accounts.IdsDistinct | server/src/models/Document.js:7-11 | rows of an auto-increment table with equal ids are the same row |
| Accounts.Login | server/src/routes/auth.js:33-58 | 400 unless email and password are truthy; success exactly for a known email whose hash accepts the password; unknown email and wrong password give the same 401 |
| Accounts.LoginFindsRegisteredUser | server/src/routes/auth.js:40-54 | a registered user with the right password logs in as that user |
| AuthMiddleware.ParseAuthorization | server/src/middleware/auth.js:5-13 | missing exactly for an absent or empty header; an accepted token is non-empty and space-free |
| AuthMiddleware.BearerAccepted | server/src/middleware/auth.js:10-13 | `Bearer <t>` followed by nothing, or by a space and anything, is accepted with token `t`; later pieces are ignored |
| AuthMiddleware.BearerShape | server/src/middleware/auth.js:10-13 | conversely, every accepted header has that shape |
| AuthMiddleware.DoubleSpaceRejected | server/src/middleware/auth.js:10-13 | `Bearer  t` (two spaces) leaves an empty token and is rejected |
| AuthMiddleware.Authenticate | server/src/middleware/auth.js:4-26 | each header failure, a token that fails verification and a token whose user is gone give their own 401; the request proceeds exactly when the token verifies and its user exists, as that user's id, email and name |
| AuthMiddleware.SessionAuthenticates | server/src/middleware/auth.js:10-22 | the token a register or login answers with, sent as `Bearer <token>`, authenticates that same user while the user exists |
| CredentialsForm.EmailIff | client/src/pages/Register.jsx:18 | the scan accepts exactly the strings matching `^[^\s@]+@[^\s@]+\.[^\s@]+$` |
| CredentialsForm.AcceptedEmailShape | client/src/pages/Register.jsx:18 | an accepted email has exactly one `@`, not at the start, and no white space |
| CredentialsForm.RegisterSubmit | client/src/pages/Register.jsx:15-27 | `handleSubmit` posts exactly when the email matches and the password has 6 or more characters; an email error wins over a password error |
| CredentialsForm.LoginSubmit | client/src/pages/Login.jsx:15-27 | `handleSubmit` runs the same two checks, in the same order, before the login post |
| StorageGateway.ResolveDropboxToken | server/src/services/dropboxClient.js:7-9 | the user's non-empty token, else the non-empty process token, else null; a missing user has no token |
| StorageGateway.NotConnectedIff | server/src/services/dropboxClient.js:8 | no token exactly when neither source gives a non-empty one |
| StorageGateway.Classify | server/src/routes/documents.js:268-274 | expired exactly when the status is 401 or the summary contains `expired_access_token` |
| StorageGateway.MarkerMeansExpired | server/src/routes/documents.js:271 | the marker anywhere in the summary means expired, whatever the status |
| StorageGateway.NoSignalMeansProviderError | server/src/routes/documents.js:269-274 | with no 401 and no summary, the error is rethrown |
| StorageGateway.FailureResponse | server/src/routes/documents.js:268-274 | 401 with the reconnect message exactly when expired; otherwise the provider's error goes to the error handler with its own status |
| RegistrationNumbers.FractionDigits | server/src/routes/documents.js:13 | one base-36 character per digit of the random fraction |
| RegistrationNumbers.Candidates | server/src/routes/documents.js:79-82 | one candidate per draw, each the number that draw builds |
| RegistrationNumbers.UpperDigitsAreCode | server/src/routes/documents.js:12-13 | upper-cased base-36 digits are `[A-Z0-9]` |
| RegistrationNumbers.BuildShape | server/src/routes/documents.js:11-15 | a candidate is `DOC-` + a non-empty `[A-Z0-9]` stamp + `-` + a `[A-Z0-9]` suffix of at most 5 characters, empty only for a zero fraction |
| RegistrationNumbers.CandidatesAssigned | server/src/routes/documents.js:11-15 | no candidate is empty, so a generated number always counts as assigned |
| RegistrationNumbers.UpperCaseInjective | server/src/routes/documents.js:12 | upper-casing is one-to-one on base-36 digits |
| RegistrationNumbers.DistinctTimestampsDistinctNumbers | server/src/routes/documents.js:12-14 | two draws that build the same candidate read the same clock |
| RegistrationNumbers.StampUnique | server/src/routes/documents.js:14 | the stamp of a `DOC-<stamp>-<suffix>` number is determined by the number |
| Catalog.ListCategories | server/src/routes/categories.js:9-19 | every category exactly once, each with its parent resolved, ordered by name |
| Catalog.ListedParentsResolve | server/src/models/index.js:18-19 | while the `parentId` foreign key holds, a listed category shows a parent exactly when it has a parentId, and that parent is the row the id names |
| Catalog.ListTypes | server/src/routes/documentTypes.js:9-16 | every type exactly once, ordered by name |
| Catalog.CategoryInUse | server/src/routes/categories.js:58-59 | true exactly when some document has that categoryId |
| Catalog.HasSubcategories | server/src/routes/categories.js:63-64 | true exactly when some category names it as parent |
| Catalog.TypeInUse | server/src/routes/documentTypes.js:52-53 | true exactly when some document has that documentTypeId |
| Catalog.HasName | server/src/index.js:20 | `findOrCreate` finds a row exactly when some row carries the name |
| Catalog.SeedCovers | server/src/index.js:19-25 | after a seeding loop every listed name exists |
| Catalog.SeedAppends | server/src/index.js:19-25 | seeding only appends rows for names that were missing, each name at most once; existing rows are untouched |
| Catalog.SeedIdempotent | server/src/index.js:20 | seeding a table that already carries every name changes nothing |
| Catalog.SeedTwice | server/src/index.js:19-25 | a second seeding run adds nothing |
| Catalog.SeedDefaults | server/src/index.js:12-25 | after startup, the five default categories and four default types exist, and only missing ones were added |
| Catalog.SeedStep | server/src/index.js:20 | one find-or-create that has to create keeps the seeding invariant |
| Catalog.HasNameGrows | server/src/index.js:20 | a name found before more rows are appended is still found |
| DocumentRules.OwnedDocument | server/src/routes/documents.js:124-129 | found exactly when the id exists and the caller owns it, and then it is that row |
| DocumentRules.ForeignDocumentLooksMissing | server/src/routes/documents.js:185-190 | another user's document is answered exactly as if it did not exist |
| DocumentRules.NumberTaken | server/src/routes/documents.js:75 | true exactly when some document, of any owner, holds the number |
| DocumentRules.History | server/src/routes/documents.js:109-111 | a document's versions are exactly its version rows |
| DocumentRules.NextVersion | server/src/routes/documents.js:282 | the next version is at least 1 |
| DocumentRules.HistoryAppend | server/src/routes/documents.js:283-288 | a new version row extends only its own document's history |
| DocumentRules.UploadKeepsDense | server/src/routes/documents.js:282-288 | appending version count + 1 keeps every document's versions numbered 1, 2, 3, …, and the new row comes last |
| DocumentRules.NextVersionFollowsLast | server/src/routes/documents.js:282 | with dense histories, the next version is 1 or one more than the last |
| DocumentRules.CascadeHistory | server/src/models/index.js:24 | a cascade leaves every other document's history as it was and empties the deleted ones |
| DocumentRules.WhereWhereSwap | server/src/models/index.js:24 | filtering versions by a weaker filter first changes nothing |
| DocumentRules.CascadeKeepsDense | server/src/models/index.js:24 | cascading deletes keep all histories dense |
| DocumentRules.DocumentPath | server/src/routes/documents.js:260 | the upload path starts with `/documents/` |
| DocumentRules.DocumentPathInjective | server/src/routes/documents.js:260 | distinct (document, file name) pairs get distinct paths |
| DocumentRules.ListedRows | server/src/routes/documents.js:21-39 | exactly the caller's documents matching the filters, newest first |
| DocumentRules.EmptyQueryListsOwnDocuments | server/src/routes/documents.js:21 | with no filters, all of the caller's documents and nobody else's |
| DocumentRules.NullNumberNeverMatches | server/src/routes/documents.js:25-27 | a document without a number never matches a number filter |
| DocumentRules.ValidateCreate | server/src/routes/documents.js:50-72 | success exactly when the required fields are truthy and both ids parse and name existing rows; otherwise the 400 of the first failing check |
| DocumentRules.MissingCategoryIsBadRequest | server/src/routes/documents.js:64-67 | a missing category is 400, not 404 |
| DocumentRules.NewDocument | server/src/routes/documents.js:84-93 | the created row belongs to the caller, copies the looked-up category and type names, and has no file pointer |
| DocumentRules.FirstFresh | server/src/routes/documents.js:79-82 | the retry loop stops at the first candidate no document holds |
| DocumentRules.CreatedNumberIsFresh | server/src/routes/documents.js:74-82 | the committed number is non-empty and held by no document |
| DocumentRules.ReviseDocument | server/src/routes/documents.js:131-175 | the checks run in order (category 400, type 400, number 409) before the single write; omitted ids keep both the id and the name snapshot |
| DocumentRules.EmptyUpdateKeepsDocument | server/src/routes/documents.js:131-175 | a `PUT` with an empty body succeeds and writes the document back unchanged |
| DocumentRules.EmptyNumberWrittenUnchecked | server/src/routes/documents.js:160-172 | an update with `registrationNumber: ""` skips the uniqueness check and writes "" |
| Integrity.EmptyDb | server/src/models/index.js:9-25 | a new database has no documents and no versions |
| Integrity.EmptyConsistent | server/src/models/index.js:9-25 | the empty database is consistent |
| Integrity.UserAddedKeeps | server/src/routes/auth.js:15-21 | registering an email no user holds keeps the store consistent |
| Integrity.UserRemovedKeeps | server/src/models/index.js:9 | deleting a user with their documents, and those documents' registrations and versions, keeps the store consistent |
| Integrity.DocumentsDeletedKeeps | server/src/models/index.js:21-25 | deleting documents with their registrations and versions keeps the store consistent |
| Integrity.DocumentRemovedKeeps | server/src/routes/documents.js:192 | deleting one document, with its cascade, keeps the store consistent |
| Integrity.CategoryAddedKeeps | server/src/routes/categories.js:27-30 | a new category whose parent exists, or is the new row itself, keeps the store consistent |
| Integrity.CategoryRevisedKeeps | server/src/routes/categories.js:44 | rewriting a category with an existing parent keeps the store consistent |
| Integrity.CategoryRemovedKeeps | server/src/routes/categories.js:58-68 | deleting a category no document uses and no category has as parent leaves no dangling reference |
| Integrity.TypeAddedKeeps | server/src/routes/documentTypes.js:24 | a new type keeps the store consistent |
| Integrity.TypeRevisedKeeps | server/src/routes/documentTypes.js:38 | renaming a type keeps the store consistent |
| Integrity.TypeRemovedKeeps | server/src/routes/documentTypes.js:52-57 | deleting a type no document uses leaves no dangling reference |
| Integrity.DocumentAddedKeeps | server/src/routes/documents.js:74-93 | a new document with resolved references and a free number keeps the store consistent |
| Integrity.InsertKeepsResolved | server/src/routes/documents.js:64-72 | the looked-up category and type keep every document's references resolved |
| Integrity.InsertKeepsNumbersUnique | server/src/models/Document.js:28-31 | with no unique constraint, the free-number check alone keeps assigned numbers unique |
| Integrity.DocumentRevisedKeeps | server/src/routes/documents.js:160-175 | rewriting a document with resolved references and an unchanged, empty or free number keeps the store consistent |
| Integrity.RevisionKeeps | server/src/routes/documents.js:131-175 | every update the checks accept keeps the store consistent |
| Integrity.PutKeepsNumbersUnique | server/src/routes/documents.js:160-165 | the changed-number check keeps assigned numbers unique |
| Integrity.RegistrationAddedKeeps | server/src/routes/documents.js:228-232 | a registration on an existing document keeps the store consistent |
| Integrity.RegistrationRevisedKeeps | server/src/routes/registrations.js:33 | rewriting a registration keeps the store consistent |
| Integrity.RegistrationRemovedKeeps | server/src/routes/registrations.js:49 | deleting a registration keeps the store consistent |
| Integrity.VersionAddedKeeps | server/src/routes/documents.js:282-288 | appending version count + 1 of an existing document keeps the store consistent |
| Queries.RegistrationsOf | server/src/routes/documents.js:203 | exactly the registrations of that document |
| Queries.Listed | server/src/routes/documents.js:34-38 | a document joined with its registrations, its category with that category's parent, and the type row its `documentTypeId` names |
| Queries.ListDocuments | server/src/routes/documents.js:19-45 | only the caller's matching documents, every one of them, newest first |
| Queries.JoinFacts | server/src/routes/documents.js:32-40 | the join keeps the rows and their order |
| Queries.GetDocument | server/src/routes/documents.js:101-120 | 404 exactly when the caller owns no such document; otherwise the joined document with its versions, oldest first |
| Queries.DetailHistoryIsDense | server/src/routes/documents.js:109-111 | in a consistent store the detail shows versions 1, 2, 3, … |
| Queries.ListRegistrations | server/src/routes/documents.js:199-212 | 404 unless the caller owns the document; otherwise exactly its registrations |
| Queries.OwnedRegistration | server/src/routes/registrations.js:11-16 | found exactly when the registration exists and the caller owns its document |
| Queries.GetRegistration | server/src/routes/registrations.js:9-21 | 404 unless found that way; otherwise the registration with its document |
| Queries.LinkFor | server/src/routes/documents.js:312-322 | the provider's link on success; otherwise the classified failure |
| Queries.Download | server/src/routes/documents.js:296-326 | 404 without an owned document or a stored path, 400 without a token, else the link for the stored path |
| Queries.VersionOfDocument | server/src/routes/documents.js:337-339 | found exactly when the version row belongs to that document |
| Queries.DownloadVersion | server/src/routes/documents.js:328-365 | 404 for a document the caller does not own, 404 for a version of another document, 400 without a token, else the link for the version's path |
| Queries.DownloadVersionIsOwnVersion | server/src/routes/documents.js:337-353 | a successful version download is of a version of the caller's own document |
| Registry.Store.constructor | server/src/models/index.js:9-25 | a new store is empty and consistent |
| Registry.Store.Register | server/src/routes/auth.js:8-31 | 400 unless all three fields are truthy; 409 on a used email; otherwise exactly one user is added, storing the hash |
| Registry.Store.DestroyUser | server/src/models/index.js:9 | deleting a user removes their documents and those documents' registrations and versions |
| Registry.Store.CreateCategory | server/src/routes/categories.js:21-35 | 400 on a falsy name; then a parent naming no category other than the new row breaks the foreign key and is forwarded; otherwise exactly one category is added, its parent the given non-zero parentId or null |
| Registry.Store.UpdateCategory | server/src/routes/categories.js:37-49 | 404 on an unknown id; a null name is a validation error; a parent naming no category breaks the foreign key and is forwarded; otherwise only that row changes, and an omitted parent detaches it |
| Registry.Store.DeleteCategory | server/src/routes/categories.js:51-73 | 404, then 409 in use, then 409 has subcategories; otherwise only that row is removed |
| Registry.Store.CreateType | server/src/routes/documentTypes.js:18-29 | 400 on a falsy name; otherwise exactly one type is added |
| Registry.Store.UpdateType | server/src/routes/documentTypes.js:31-43 | 404 on an unknown id; otherwise only the name changes |
| Registry.Store.DeleteType | server/src/routes/documentTypes.js:45-62 | 404, then 409 while in use; otherwise only that row is removed |
| Registry.Store.FindOrCreateCategory | server/src/index.js:20 | one find-or-create on the category table |
| Registry.Store.FindOrCreateType | server/src/index.js:24 | one find-or-create on the type table |
| Registry.Store.SeedCategories | server/src/index.js:19-21 | the loop leaves the category table seeded with every name, in order |
| Registry.Store.SeedTypes | server/src/index.js:23-25 | the loop leaves the type table seeded with every name, in order |
| Registry.Store.Seed | server/src/index.js:12-25 | startup seeds the default categories, then the default types, and touches nothing else |
| Registry.Store.FreshNumber | server/src/routes/documents.js:79-82 | the retry loop returns the first candidate no document holds |
| Registry.Store.CreateDocument | server/src/routes/documents.js:47-99 | the validation status, or 409 for a supplied number already held, or exactly one new document with a fresh number; the store stays consistent |
| Registry.Store.UpdateDocument | server/src/routes/documents.js:122-181 | 404 for a document the caller does not own; otherwise the first failing check with nothing changed, or the single write of the revised document |
| Registry.Store.DeleteDocument | server/src/routes/documents.js:183-197 | 404 for a document the caller does not own; otherwise it goes with its registrations and versions |
| Registry.Store.AddRegistration | server/src/routes/documents.js:214-238 | 400 without a number, before the lookup; 404; otherwise one registration whose status is the given one or "active" |
| Registry.Store.UpdateRegistration | server/src/routes/registrations.js:23-38 | 404 unless the caller owns the registration's document; otherwise only number and status change, unchecked |
| Registry.Store.DeleteRegistration | server/src/routes/registrations.js:40-54 | 404 unless owned; otherwise only that registration goes and the document is unchanged |
| Registry.Store.Upload | server/src/routes/documents.js:240-294 | 400 without a file, before the lookup; 404; 400 without a token; a failed provider call writes nothing; success points the document at `/documents/<id>/<name>` and appends version count + 1 |

## Left out

- HTTP plumbing is not modelled: Express routing, multer, JSON parsing, the generic error handler, `sequelize.sync` and `app.listen`. Each response is an `Outcome`, and an error handed to `next(error)` is `Forwarded`.
- The Dropbox routes (`server/src/routes/dropbox.js`) are not part of this model. They are SDK and environment glue.
- The file's bytes are not modelled. An upload is the file's original name; the provider decides success.
- Concurrency is not modelled. Each request runs atomically, including the race between the number check and the insert, and the two writes of an upload.
- Timestamps are not stored. Ids increase with insertion, so "newest first" is descending id and "oldest first" is ascending id.
- The User and Category model files are not part of this model. Their fields are inferred from the routes. Category `name` is taken as NOT NULL, so a null name on update is a validation error.
- JsValues.StringToNumber: reads only optionally signed decimal digit runs. `Number`'s white-space trimming, fractions such as "1.0", exponents and hexadecimal forms are not modelled, and such strings read as `NaN`.
- DocumentRules.MatchesQuery: the model treats `LIKE` as plain, case-sensitive substring search. SQLite's ASCII case folding and `%`/`_` wildcards in the query are not modelled, and a category filter must read as an integer.
- NameOrder.SortByName: compares code points. Among rows with equal names it keeps table order, where SQLite may return any order.
- Registry.Store.CreateDocument: requires some drawn candidate to be free, because the source's retry loop has no bound. It also requires the caller to exist, which the auth middleware checked for the same request.
- Registry.Store.FreshNumber: requires some drawn candidate to be free, for the same reason.
- RegistrationNumbers.RandomPart: the fraction's digits are an input. The distribution of `Math.random()` and its digit count are not modelled.
- The `parentId` foreign key is modelled as SQLite checks it, when the writing statement completes, so a new category may name its own new id as parent.
- JsValues.Value: has no arrays or objects. In JavaScript `Number([7])` is 7, and `[]` is truthy with `Number([])` equal to 0, so the source accepts a JSON body with `categoryId: [7]` as category 7; the model cannot express such a body.
- Catalog.StoredParent: takes the parent as an integer or nothing, while the category form posts the selected option as a string. SQLite's integer affinity stores a numeric string as its number. A non-numeric string is not modelled, nor the string "0": it is truthy, so it is kept and then breaks the foreign key, where the number 0 is stored as null.
- Database-level `SET NULL` on category and type deletion is not modelled as a write. The delete guards refuse while a document refers to the row, so the store never reaches that path.
- A registration whose document is missing would make the registration routes throw. The model's consistent store has no such registration.
- Route ids are integers. A non-numeric `:id` simply finds no row, as in the source.
- Password length: a JavaScript string's `length` counts UTF-16 code units. The model counts characters, which differs only outside the Basic Multilingual Plane.
- The React pages' rendering and state are not modelled. Only the Register and Login submit checks are.
- CredentialsForm.RegisterSubmit, CredentialsForm.LoginSubmit: model `handleSubmit` only. The browser's own checks from the inputs' `required`, `type="email"` and `minLength` attributes can stop a submission before it runs (an empty name, or an email such as "a@b..c" that the regular expression accepts and HTML's e-mail syntax does not), so the page posts a subset of what `Post` allows.

# Profiles API — a Dafny model

This project models the decision logic of a small profile service in Dafny. The service is an Express server over one SQLite table, `profiles`, plus a browser client. It covers three parts:

- **The table and its handlers** (`database.dfy`, `server.dfy`). The `profiles` table is a map from id to `Profile`, plus the AUTOINCREMENT counter. The schema's constraints are a validity invariant: ids below the counter, non-empty `name` and `email`, and unique `email`. Each of `POST /profiles`, `GET /profiles/:id`, `PUT /profiles/:id` and `DELETE /profiles/:id` is a pure function from request, table and storage-fault oracle to response and new table. The decision order is the source's:
  1. The presence check on `name` and `email` gives 400 before any storage call.
  2. A storage error whose message contains `UNIQUE constraint failed` gives 409.
  3. Any other storage error gives 500 and echoes the engine's message.
  4. Zero changed rows gives 404.
  5. Otherwise the answer is 200, or 201 for a create.

  Start-up seeding is modelled too. It inserts the three sample profiles only when the row count is zero.
- **The project search post-filter** (`search.dfy`, `Server.SearchProjects`). The storage pre-filter (a `LIKE` over JSON text) returns rows, which the model takes as an arbitrary sequence. Of each row's projects, the handler keeps those whose title or description contains `q` case-insensitively. It then flattens the kept projects in row order, then project order, annotating each with `profileId` and `profileName`.
- **The client's form parsing** (`client.dfy`). This is the pure part of the "add profile" submit handler:
  - It trims the inputs.
  - It refuses to send when the name or email is empty.
  - It parses the skills and links as comma-separated lists: split on `,`, trim, drop empties.
  - It builds at most one project.
  - It turns an empty education into `null`.

`text.dfy` holds the string operations these rely on: JavaScript's `trim` (with its exact whitespace set), `split`, `join`, ASCII lower-casing and `includes`. `wrappers.dfy` has `Option` and `Result`.

Storage failures that do not follow from the table's contents (I/O errors, a locked database) are an input: every storage statement takes `fault: Option<string>`, and `Some(message)` makes it fail with that message. The clock, the network and the DOM are not modelled.

Three behaviours of the code are easy to miss, and the model keeps them:

- Seeding is not awaited. `initializeDatabase` resolves right after calling `seedDatabase()` (backend/database.js:34-35), so requests can arrive before the samples exist. The model treats `Seed` as an operation on the table and does not model that ordering.
- The create and update handlers classify a storage error by its message text (backend/server.js:120, 154). A fault whose message happens to contain `UNIQUE constraint failed` is therefore answered with 409 (`FaultLooksUnique`).
- An update of an absent id matches no row. It answers 404 even when the new email belongs to another row, because no row changes and so no uniqueness check fires.

## Model

| member | source | states |
|---|---|---|
| Database.Insert | backend/database.js:20-29 | An INSERT succeeds exactly when there is no fault and no row holds the email. On success the new row gets the counter's value as its id, the counter grows by one, every other row is unchanged, and the invariant is kept. On failure the error is the fault's message or the unique-violation message. |
| Database.Update | backend/server.js:148-152 | An UPDATE fails exactly on a fault, or on an existing id whose new email another row holds. An absent id changes 0 rows and leaves the table as it was. Otherwise it changes 1 row: that row is replaced, the others and the counter are untouched, and the invariant is kept. |
| Database.Delete | backend/server.js:175 | A DELETE fails exactly on a fault. Otherwise it removes the id's row if there is one (reporting 1 or 0 changes), keeps the other rows and the counter, and keeps the invariant. |
| Database.Find | backend/server.js:81 | A SELECT by id returns the row exactly when the id is present, and nothing otherwise. It fails exactly on a fault. |
| Database.EmptyStoreValid | backend/database.js:20-29 | A freshly created table satisfies the schema invariant. |
| Database.SamplesWellFormed | backend/database.js:44-94 | The three sample profiles have non-empty names and emails and pairwise distinct emails. |
| Database.InsertEach | backend/database.js:105-112 | Running the prepared INSERT over a batch never lowers the counter and never drops a row. With non-empty names and emails, it keeps the invariant. |
| Database.Seed | backend/database.js:96-117 | A failed count or a non-empty table leaves the table unchanged. An empty table receives exactly the three sample rows under the next three ids. The invariant is kept. |
| Database.SeedingEmptyTable | backend/database.js:103-113 | On an empty table, all three sample inserts succeed, in order, under consecutive fresh ids. |
| Database.InsertThreeIntoEmpty | backend/database.js:108-110 | Three inserts with distinct emails into an empty table store all three under consecutive ids. |
| Server.ToProfile | backend/server.js:105-116 | The row to store has the request's name, email and education. Its skills and projects are the request's, or `[]` where they are missing (`skills \|\| []`). |
| Server.HasRequiredFields | backend/server.js:107 | The guard `!name \|\| !email` (also at line 140) lets a body through exactly when both fields are present and non-empty. |
| Server.IsUniqueViolation | backend/server.js:120 | A storage error counts as a uniqueness violation when its message contains `UNIQUE constraint failed` (also at line 154). |
| Server.WriteErrorResponse | backend/server.js:119-125 | A storage error gives 409 exactly when its message contains `UNIQUE constraint failed`. Otherwise it gives 500 with the engine's message. |
| Server.UniqueViolationIsConflict | backend/server.js:120 | The engine's unique-email violation message is classified as a conflict. |
| Server.CreateProfile | backend/server.js:104-133 | A missing or empty name or email gives 400. No fault and a fresh email give 201. A held email, or a fault that reads as a unique violation, gives 409. Any other fault gives 500. Only 201 changes the table: it adds the submitted row with omitted skills and projects as `[]`, under a fresh id, and keeps the invariant. |
| Server.GetProfile | backend/server.js:78-101 | A fault gives 500. No fault and an absent id give 404. Otherwise the answer is 200 with that id's stored row. |
| Server.UpdateProfile | backend/server.js:136-169 | Presence check first (400). Then a fault gives 500, or 409 when its message reads as a unique violation. Then an absent id gives 404, and an email held by a different row gives 409. Otherwise 200 replaces all five fields of that row and leaves every other row and the counter alone. Every non-200 leaves the table unchanged, and the invariant is kept. |
| Server.DeleteProfile | backend/server.js:172-188 | A fault gives 500. An absent id gives 404 with the table unchanged. Otherwise 200 removes exactly that row. The invariant is kept. |
| Server.SearchProjects | backend/server.js:191-226 | A missing or empty `q` gives 400, and a fault gives 500. Otherwise the answer is 200 with results that all match `q` case-insensitively, at most as many as the scanned rows' projects. |
| Server.Handle | backend/server.js:78-188 | Any handler keeps the invariant. Only a 201 advances the counter, by one, and it reports the old counter value as the new id. |
| Server.RunAssignsFreshIds | backend/database.js:21 | Over any sequence of requests the invariant holds and the counter never decreases. The ids handed out are strictly increasing and lie between the initial and final counter. |
| Server.RunAppend | backend/server.js:104-188 | Serving two request sequences one after the other is the same as serving their concatenation. |
| Server.CreatedIdsAppend | backend/server.js:128-131 | The ids reported by a concatenation of responses are those of each part, in order. |
| Server.NoIdReuse | backend/database.js:21 | Serving a history and then more requests hands out the ids of the whole concatenated run. An id handed out afterwards differs from every id handed out during the history (deletes included), and from every id the table held before it. |
| Server.CreateThenGet | backend/server.js:112-131 | After a 201, getting the new id returns the submitted name, email and education. It also returns the submitted skills and projects, or `[]` where they were omitted. |
| Server.DuplicateCreateConflicts | backend/server.js:118-126 | A second create with an email the first one stored gets 409, changes nothing, and exactly one row holds that email. |
| Server.MissingFieldsKeepCount | backend/server.js:107-110 | A create without name or email gives 400 and leaves the row count unchanged. |
| Server.DeleteTwice | backend/server.js:175-186 | Deleting an existing id gives 200. A later get or delete of that id gives 404. |
| Server.UpdateThenGet | backend/server.js:145-167 | After a 200 update, getting the id returns exactly the submitted fields, with omitted skills or projects read back as `[]`. |
| Server.SearchResultsBelongToStore | backend/server.js:199-222 | When the scanned rows are rows of the table, each result is one of its owner row's projects and carries that row's id and current name. Every matching project of every scanned row is among the results. |
| Server.SampleSearchFindsML | backend/server.js:208-221 | Searching `ML` over any scan that includes Jane Smith's sample row returns her "ML Prediction Model" project, annotated with her id and name. |
| Search.RowMatches | backend/server.js:209-221 | For one row, every kept project matches `q` and is one of the row's projects carrying the row's id and name. There are no more results than projects. |
| Search.MatchingProjects | backend/server.js:205-222 | Every result matches `q` case-insensitively, and there are at most as many results as projects in the scanned rows. |
| Search.CollectMatches | backend/server.js:206-222 | The handler's nested loops produce exactly the matching entries of all scanned projects, in row order and then project order. |
| Search.AllEntries | backend/server.js:208-221 | Flattening all scanned rows yields exactly as many entries as the rows have projects. |
| Search.Annotate | backend/server.js:216-220 | A result carries the project's own fields unchanged, with the row's id as `profileId` and its name as `profileName`. |
| Search.RowEntries | backend/server.js:215-220 | Each annotated entry is the row's project at the same position, with the row's id and name. |
| Search.SelectAppend | backend/server.js:208 | Selecting matching entries distributes over concatenation. |
| Search.RowMatchesIsSelect | backend/server.js:209-221 | Filtering one row and then annotating equals annotating and then selecting. |
| Search.MatchingIsSelectOfAll | backend/server.js:205-222 | Filtering each row and then flattening equals flattening every project and then selecting the matches. |
| Search.ProjectMatches | backend/server.js:210-213 | A project matches when its lower-cased title or lower-cased description contains the lower-cased query. |
| Search.SelectIsOrderedFilter | backend/server.js:210-213 | An entry is selected exactly when it is among the inputs and matches. The selection is an order-preserving subsequence of the input. |
| Search.SelectMembers | backend/server.js:210-213 | An entry is selected exactly when it is among the inputs and matches `q`. |
| Search.SelectKeepsOrder | backend/server.js:210-213 | The selected entries occur in the input at strictly increasing positions. |
| Search.MatchesComeFromRows | backend/server.js:215-220 | Every result is a project of some scanned row and carries that row's id and name. |
| Search.MatchesAreComplete | backend/server.js:210-221 | Every matching project of every scanned row appears among the results. |
| Search.EntryInAll | backend/server.js:208-220 | Every project of every scanned row appears, annotated, in the flattened list. |
| Text.IsSpace | frontend/app.js:181 | The characters `trim()` strips: ECMAScript's WhiteSpace and LineTerminator code points. |
| Text.AsciiWhitespace | frontend/app.js:181 | Among ASCII characters, exactly TAB, LF, VT, FF, CR and space count as whitespace. |
| Text.TrimStart | frontend/app.js:181 | Stripping leading whitespace never lengthens the string, and the result does not start with whitespace. |
| Text.TrimStartIsSuffix | frontend/app.js:181 | What leading-whitespace stripping keeps is a suffix of the input, and everything it removed is whitespace. |
| Text.TrimEnd | frontend/app.js:181 | Stripping trailing whitespace never lengthens the string, and the result does not end with whitespace. |
| Text.TrimEndIsPrefix | frontend/app.js:181 | What trailing-whitespace stripping keeps is a prefix of the input, and everything it removed is whitespace. |
| Text.Trim | frontend/app.js:181-187 | `trim()` yields a string that neither starts nor ends with whitespace and is no longer than the input. |
| Text.TrimIsFramed | frontend/app.js:181-187 | The trimmed string occurs in the input at some offset, with nothing but whitespace before and after it. |
| Text.TrimKeepsOut | frontend/app.js:195 | Trimming introduces no character the input lacks, so trimmed comma-free pieces stay comma-free. |
| Text.TrimmedIsFixpoint | frontend/app.js:195 | Trimming an already trimmed string returns it unchanged. |
| Text.TrimIdempotent | frontend/app.js:195 | Trimming twice is the same as trimming once. |
| Text.TrimEmptyIffAllSpace | frontend/app.js:189 | A string trims to empty exactly when it is all whitespace. |
| Text.LowerCase | backend/server.js:211-212 | `toLowerCase()` keeps the length, maps every `A`-`Z` to its lower-case letter, keeps every other character, and leaves no upper-case ASCII letter. |
| Text.LowerCaseIdempotent | backend/server.js:211-212 | Lower-casing twice is the same as lower-casing once. |
| Text.Contains | backend/server.js:211-212 | `includes`: the query occurs at some position of the string. |
| Text.ContainsIgnoreCase | backend/server.js:211-212 | The lower-cased query occurs in the lower-cased string. |
| Text.ContainsInfix | backend/server.js:211-212 | `includes` finds every infix of the string, and never a query longer than the string. |
| Text.LowerCaseInfix | backend/server.js:211-212 | Lower-casing a string lower-cases each of its parts in place. |
| Text.ContainsIgnoreCaseInfix | backend/server.js:211-212 | The case-insensitive test finds an infix whatever the case in which the query spells it. |
| Text.Split | frontend/app.js:195 | `split(',')` yields at least one piece, and no piece contains the separator. |
| Text.JoinSplit | frontend/app.js:195 | Joining the pieces of a split with the separator gives back the input. |
| Text.SplitPrefix | frontend/app.js:195 | Splitting a separator-free prefix followed by more text glues the prefix onto the first piece. |
| Text.SplitJoin | frontend/app.js:195 | Splitting the join of separator-free pieces gives back the pieces. |
| Client.TrimNonBlank | frontend/app.js:195 | Trimming and dropping blank pieces keeps at most as many entries. When the pieces hold no comma, every entry is non-empty, trimmed and comma-free. |
| Client.ParseList | frontend/app.js:195 | An empty input parses to `[]`. Every parsed entry is non-empty, has no leading or trailing whitespace and contains no comma. There are at most as many entries as comma-separated pieces. |
| Client.TrimNonBlankAppend | frontend/app.js:195 | Trimming and dropping blanks works piece by piece, so it distributes over concatenation. |
| Client.TrimNonBlankIsOrderedFilter | frontend/app.js:195 | The result picks out the trimmed pieces at strictly increasing positions, and those positions are exactly the ones whose trimmed piece is non-empty. So every non-blank trimmed piece is kept, in input order, and nothing else. |
| Client.DropBlankLast | frontend/app.js:195 | A trailing piece that trims to nothing adds no entry, and the kept positions stay the same. |
| Client.KeepNonBlankLast | frontend/app.js:195 | Any other trailing piece adds its trimmed self at the end, at the last position. |
| Client.ParseListIsFilterOfSplit | frontend/app.js:195 | The parsed list is the trimmed comma-separated pieces with the blank ones removed and the rest in input order. An entry occurs in it exactly when it is a non-empty trimmed piece. The empty input needs no special case. |
| Client.ParseTwoPieces | frontend/app.js:195 | `a,b` with comma-free, non-blank pieces parses to `a` and the trimmed `b`. |
| Client.ParseTwoSkills | frontend/app.js:195 | `"JavaScript, Python"` parses to `["JavaScript", "Python"]`. |
| Client.TrimNonBlankOfItems | frontend/app.js:195 | Trimming and filtering a list of well-formed entries leaves it unchanged. |
| Client.ParseJoinedList | frontend/app.js:195 | Parsing the comma-join of well-formed entries returns those entries in order. |
| Client.ParseSingleEntry | frontend/app.js:195 | Comma-free text parses to its trimmed self, or to `[]` when blank. |
| Client.BuildProjects | frontend/app.js:197-208 | There is one project exactly when both title and description are non-empty, carrying them and the parsed links. Otherwise there is none. |
| Client.Submit | frontend/app.js:181-216 | Nothing is produced exactly when the trimmed name or email is empty. Otherwise the data has the trimmed name and email, education `null` if blank and the trimmed text otherwise, the parsed skills, and one project exactly when title and description are both non-empty. That project carries the trimmed title, the trimmed description and the parsed links. |
| Client.AsRequest | frontend/app.js:210-222 | The posted body passes the server's presence check exactly when the name and email are non-empty. The server then stores exactly the fields sent (backend/server.js:105-116). |
| Client.SubmittedFormRoundTrip | frontend/app.js:210-222 | What the form submits always passes the server's presence check. With no fault and a fresh email it is created (201) and reads back exactly as sent. |

## Left out

- `GET /profiles` with its optional `?skill=` filter (backend/server.js:49-75): the filter is a SQL `LIKE` over JSON-encoded text, and the row order is the engine's. Neither is modelled.
- The storage pre-filter of the search (`projects LIKE ?`): the rows it returns are an arbitrary input sequence, so no claim says that every matching profile is scanned.
- Server.SearchProjects: states soundness and size only with respect to the rows it is given, not to the whole table, because the pre-filter is not modelled.
- `GET /` and `GET /health`: constant metadata and a clock reading.
- Helmet, the CORS allow-list, the error middleware and the 404 catch-all: framework configuration.
- The sqlite3 connection, `db.serialize`/`prepare`, the `initializeDatabase` promise, and the `process.exit` path: these are I/O wiring. Storage failures appear as the `fault` input instead.
- JSON encoding and decoding of `skills` and `projects`: rows hold structured values, and malformed stored text is not modelled.
- Project entries are a title, a description and optional links. Any other field a client posts in a project object is dropped by the model. The service returns such fields from `GET /profiles/:id` (backend/server.js:96) and copies them into search results (backend/server.js:217).
- A project whose title or description is missing or not a string is not modelled. The search throws on it at backend/server.js:211-212. For the description this happens only when the title does not match `q`.
- `created_at` and `updated_at`: these are clock values.
- Request bodies whose `name`, `email`, `skills` or `projects` have a type other than string or array: a non-string truthy name would be stored as is. Falsy values are modelled as absent.
- A `q` query parameter given more than once, which Express turns into an array. The handler then throws as soon as a scanned row has at least one project (backend/server.js:211). With no rows, or only empty project lists, it answers 200 with `[]`.
- The `:id` path parameter is modelled as an integer. Text that SQLite cannot read as an integer matches no row, which the model covers as an absent id.
- Unicode case mapping: `toLowerCase` is modelled as ASCII lower-casing. `trim` uses JavaScript's exact whitespace and line-terminator code points.
- AUTOINCREMENT exhaustion at the largest 64-bit rowid (SQLITE_FULL): ids are unbounded integers.
- Seeding: what follows a failed sample insert is not modelled. The sample statements carry no callback, and what node-sqlite3 then does with the error is not part of this model. `InsertEach` simply stops at the first failure, and seeding an empty table never fails (`SeedingEmptyTable`). An I/O failure of an individual sample insert is not modelled either: only the row count query takes a fault.
- The order in which seeding and request handling interleave at start-up: this is concurrency.
- All DOM work (`displayProfiles`, `displayProjects`, `showStatus`, `showLoading`), `escapeHtml`, `getDomainFromUrl`, `fetchAPI` and `setTimeout`: these are rendering and network I/O. So is the client's lack of ordering between overlapping requests.

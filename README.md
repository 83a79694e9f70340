# Call-log backend, modelled in Dafny

This project models the request handling of a small Express/Mongoose REST
backend. The backend collects phone call logs from employees' devices,
binds devices to employees through connect codes, and manages
administrators and organizations. Each MongoDB collection is a
`Db.Collection<T>` object whose one field is the sequence of its documents.
No route deletes a document, so an ObjectId is modelled as a position in
that sequence.

- Routes that write are methods with a `modifies` frame, proved equal to a
  pure function of the old contents.
- The properties the routes promise are lemmas about those functions.
- Read-only routes are functions.

Modules:

- `Common`: optional values, JavaScript truthiness, and the string methods
  the routes use.
- `Db`: collections, and the `:id` parameter after the ObjectId cast.
- `Bcrypt`: a symbolic, collision-free hash.
- `Models`: the schemas and their unique indexes.
- `Auth`: the `auth` middleware.
- `CallLogs`: call-log type codes, batch ingestion, the filtered and paged
  listing, and status updates.
- `Employees` and `EmployeeConnect`: connect codes and device binding.
- `Admins`: registration, login and the password pre-save hook.
- `Organizations`: create, list and fetch by id.

The connect route is deliberately narrow:

- `POST /verify` looks the connect code up exactly as sent. It does not trim
  it or change its case.
- Reconnecting a device moves none of its call logs to the new device id.
- Connecting issues no bearer credential.

## Model

| member | source | states |
|---|---|---|
| CallLogs.CallTypeLabel | routes/callLogs.js:6-19 | Code 1 gets INCOMING, 2 OUTGOING, 3 MISSED and 5 REJECTED. Every other integer, 4 included, gets UNKNOWN. The label is always one of the five. |
| CallLogs.CallTypeLabelInjective | routes/callLogs.js:7-15 | The four known codes get four different labels. |
| CallLogs.OpFor | routes/callLogs.js:33-59 | The document an upsert inserts satisfies that upsert's own filter. |
| CallLogs.BuildOps | routes/callLogs.js:33-60 | `bulkOps` has one self-matching operation per raw record. |
| CallLogs.ApplyOne | routes/callLogs.js:38-58 | One `updateOne` with `upsert`: it inserts exactly when no stored row matches the filter, and then appends the `$setOnInsert` document. Otherwise it changes nothing. Afterwards the filter matches a stored row. |
| CallLogs.ApplyOps | routes/callLogs.js:63-64 | The bulk write only appends: existing documents are a prefix of the result. The store grows by exactly the upserted count, which is at most the number of operations. |
| CallLogs.ApplyOpsStoresEveryKey | routes/callLogs.js:38-57 | After the bulk write, every operation's key is stored. |
| CallLogs.ApplyOpsWhenAllPresent | routes/callLogs.js:38-57 | When every key is already stored, the bulk write changes nothing and counts 0. |
| CallLogs.ApplyOpsIdempotent | routes/callLogs.js:38-64 | Applying the same operations to their own result is a no-op that counts 0. |
| CallLogs.ApplyOpsInsertsOnlyAbsent | routes/callLogs.js:38-57 | Every added row is some operation's `$setOnInsert` document. No row stored before it has its key. |
| CallLogs.ApplyOpsKeepsKeysUnique | routes/callLogs.js:38-57 | The (deviceId, clientNumber, callType, timestamp) key stays unique. |
| CallLogs.Ingestion | routes/callLogs.js:23-72 | Existing rows are untouched: the old store is a prefix of the new one. The reply is 400 "No logs provided" exactly when `logs` is missing or empty, and every other batch is saved with a 200. On success the store grows by the reported count. Otherwise it is unchanged. |
| CallLogs.IngestionStoresEveryRecord | routes/callLogs.js:33-64 | After a non-empty batch, every record's deduplication key is in the store, whether it was inserted now or was there before. |
| CallLogs.EmptyBatchRejected | routes/callLogs.js:23-31 | A missing or empty `logs` batch gives 400 "No logs provided" and leaves the store unchanged. |
| CallLogs.NoNewLogsUnreachable | routes/callLogs.js:62-72 | The "No new logs to save." reply can never be produced. |
| CallLogs.ResubmissionSavesNothing | routes/callLogs.js:33-69 | Sending the same batch again leaves the store identical and reports 0 saved. |
| CallLogs.InsertedRowsComeFromBatch | routes/callLogs.js:24-55 | Each new row is built from one raw record: number, type label, duration and time copied; `callerName` defaults to ""; `deviceId` and `location` come from the body, defaulting to ""; `status` is "". Its key was absent before it. |
| CallLogs.IngestionKeepsKeysUnique | routes/callLogs.js:33-64 | Ingestion keeps the deduplication key unique. |
| CallLogs.Ingest | routes/callLogs.js:21-77 | Behind the middleware, the route is refused with 403 exactly when `auth` denies, and the store is then unchanged. Otherwise the new store and the reply are those of `Ingestion`. |
| CallLogs.EndOfDay | routes/callLogs.js:98-101 | `setHours(23,59,59,999)` gives the last millisecond of the same local day: not before `t`, less than one day after it. |
| CallLogs.EndOfDayIdempotent | routes/callLogs.js:98-101 | Extending to the end of the day twice is extending once. |
| CallLogs.RequestedTypes | routes/callLogs.js:106-110 | `callTypes` yields one requested type per comma-separated piece. |
| CallLogs.RequestedTypesOfList | routes/callLogs.js:106-110 | A comma-joined list of labels yields those labels, trimmed and upper-cased, in order. |
| CallLogs.NumberPattern | routes/callLogs.js:115-119 | The pattern is a suffix of the filter's digits, in order. It is made of digits only and is the last 10 of them, or all of them when there are fewer. |
| CallLogs.NumberFilterIgnoresPunctuation | routes/callLogs.js:117 | A non-digit anywhere in the filter does not change the pattern, so "+91 98765-43210" filters as "+919876543210" does. |
| Common.Digits | routes/callLogs.js:117 | `replace(/\D/g, "")` leaves only digits and never lengthens the string. |
| Common.DigitsKeepsEveryDigit | routes/callLogs.js:117 | Each digit occurs in the result as often as in the input. |
| Common.LastN | routes/callLogs.js:117 | `slice(-10)` gives a suffix of length min(\|s\|, 10). |
| Common.ContainsAt | routes/callLogs.js:116-118 | A `$regex` made of digits matches exactly the values in which the pattern occurs at some position. |
| Common.ContainsInside | routes/callLogs.js:116-118 | A pattern in the middle of a value is found. |
| Common.Trim | routes/callLogs.js:109 | `trim()` gives a contiguous piece of the string with no white space at either end, and only white space is dropped before and after it. |
| Common.TrimIdempotent | routes/callLogs.js:109 | Trimming twice is trimming once. |
| Common.Upper | routes/callLogs.js:105-109 | `toUpperCase()` keeps the length, turns each lower-case letter into its capital and keeps every other character. |
| Common.OrElse | routes/callLogs.js:23-25 | `x \|\| d` is the field when it is present and not "", and `d` otherwise. With `d` = "" it is the field whenever the field is present. |
| Common.DigitsDropsNonDigit | routes/callLogs.js:117 | `replace(/\D/g, "")` drops a non-digit wherever it stands. |
| Common.DigitsKeepsDigit | routes/callLogs.js:117 | `replace(/\D/g, "")` keeps a digit in its place. |
| Common.DigitsAppend | routes/callLogs.js:117 | The digits of a concatenation are the digits of its parts, concatenated. |
| Common.DigitsOfDigits | routes/callLogs.js:117 | A string of digits is left unchanged. |
| Common.Split | routes/callLogs.js:107-108 | `split` on one character gives at least one piece, and no piece holds the separator. There is exactly one piece, the whole string, when the separator does not occur. |
| Common.JoinSplit | routes/callLogs.js:107-108 | Joining the pieces of a split with the separator gives back the string, so no character is lost. |
| Common.SplitJoin | routes/callLogs.js:107-108 | Splitting a join of pieces that hold no separator gives back those pieces. |
| CallLogs.EmptyQueryMatchesAll | routes/callLogs.js:93 | The query starts as `{}`, which matches every call log. |
| CallLogs.DescribedQuerySelects | routes/callLogs.js:93-120 | A query holding the fields the route derives selects exactly what the request asks for. |
| CallLogs.BuildQuery | routes/callLogs.js:93-120 | The query built field by field matches a call log exactly when every supplied filter holds, combined with AND:<br>`from` is an inclusive lower bound;<br>`to` reaches the end of its day;<br>`callTypes` overrides `callType`;<br>device and location must be equal;<br>the number must contain the digit pattern. |
| CallLogs.NumberFilterIgnoresCountryCode | routes/callLogs.js:115-119 | A filter ending in a 10-digit number matches every stored number that contains those digits, whatever country code the filter puts in front and whatever surrounds them in the stored number. |
| CallLogs.DigitlessNumberFilterMatchesAll | routes/callLogs.js:115-119 | A `clientNumber` filter without digits selects the same call logs as no number filter. |
| CallLogs.Filter | routes/callLogs.js:123-124 | The result holds every document the query keeps, once per stored copy, and no other document. |
| CallLogs.FilterCongruent | routes/callLogs.js:123-124 | Two queries that agree on every document return the same rows. |
| CallLogs.NewestFirstPairwise | routes/callLogs.js:125 | In the sorted result, every row is at least as recent as every later row. |
| CallLogs.SortNewestFirst | routes/callLogs.js:125 | `.sort({timestamp: -1})` is a permutation that puts the newest first. |
| CallLogs.Window | routes/callLogs.js:126-127 | `.skip(s).limit(l)` returns the rows at positions s onwards. There are at most \|l\| of them, and any number when l = 0. |
| CallLogs.Listing | routes/callLogs.js:122-133 | The listing fails with 500 exactly when the skip `(page-1)*limit` is negative. |
| CallLogs.ListingSelectsOnly | routes/callLogs.js:95-127 | Every returned row is a stored row that satisfies the filters. |
| CallLogs.ListingSortedAndBounded | routes/callLogs.js:122-129 | The page is newest first and holds at most \|limit\| rows. `total` counts every match. |
| CallLogs.ListingPageLength | routes/callLogs.js:122-127 | The page is full. With skip = (page-1)*limit ≥ 0 it holds 0 rows when skip ≥ total. Otherwise it holds total - skip rows when the limit is 0 or at least that many, and \|limit\| rows when it is not. |
| CallLogs.TotalIgnoresPaging | routes/callLogs.js:122-123 | `total` does not depend on `page` or `limit`. |
| CallLogs.PageIsSliceOfSorted | routes/callLogs.js:122-127 | With page ≥ 1 and limit > 0, row k of the page is row (page-1)*limit + k of the sorted matches, and k < limit. |
| CallLogs.List | routes/callLogs.js:79-134 | Behind the middleware, the reply is `Listing` of the stored rows the request selects, with `page` defaulting to 1 and `limit` to 100. |
| CallLogs.StatusUpdate | routes/callLogs.js:136-163 | The store changes only on success. Success happens exactly when the status is a non-empty string and the id names a stored row. Otherwise:<br>missing, empty or non-string status: 400;<br>malformed id: 500;<br>unknown id: 404. |
| CallLogs.StatusUpdateTouchesOnlyStatus | routes/callLogs.js:147-158 | A successful update changes only the addressed row's `status`. It returns the updated row. |
| CallLogs.StatusUpdateIdempotent | routes/callLogs.js:147-151 | Setting the same status twice is setting it once. |
| CallLogs.StatusUpdateKeepsKeys | routes/callLogs.js:147-151 | A status update keeps the deduplication keys unique. |
| CallLogs.UpdateStatus | routes/callLogs.js:136-163 | Behind the middleware, the new store and the reply are those of `StatusUpdate`. A refused request changes nothing. |
| Auth.BearerToken | middleware/auth.js:5 | A token is present exactly when the header splits on spaces into more than one piece and the second piece is non-empty. The token is that second piece, which holds no space. There is no token when the header is missing or holds no space. |
| Auth.Decide | middleware/auth.js:3-26 | A matching API key gives `Next(web client)`, and only it does. Otherwise the request proceeds exactly when a token is present and `jwt.verify` accepts it; the user is then the decoded payload. Every refusal is 403: "Unauthorized" exactly when there is no token, otherwise "Invalid token". |
| Auth.ApiKeyIgnoresToken | middleware/auth.js:9-12 | With a matching API key, the `authorization` header does not affect the outcome. |
| Auth.UnsetKeyAdmitsNoWebClient | middleware/auth.js:6-9 | When the configured key is unset, no request is let in as the web client. |
| Auth.BearerHeaderYieldsToken | middleware/auth.js:5 | "scheme token" yields the token. |
| Auth.ExtraPiecesIgnored | middleware/auth.js:5 | Pieces after the second are ignored: "scheme token rest" yields the token. |
| Auth.DoubleSpaceYieldsNoToken | middleware/auth.js:5 | Two spaces after the scheme leave an empty second piece, so there is no token. |
| Auth.NoTokenIsUnauthorized | middleware/auth.js:14-24 | Without a matching key and without a space in the header, the reply is 403 "Unauthorized". |
| Auth.Authenticate | middleware/auth.js:3-26 | Returns the decision of `Decide`. `req.user` is set on success and left untouched on refusal. |
| Employees.DrawIndex | routes/employees.js:9 | The drawn index lies in [0, 35]. |
| Employees.CharAt | routes/employees.js:9 | `charAt` gives one character inside the string and "" outside it. |
| Employees.DrawnCharacterIsOne | routes/employees.js:9 | A drawn index never makes `charAt` contribute "". |
| Employees.AlphabetIsUpperAndDigits | routes/employees.js:6 | Every alphabet character is A-Z or 0-9. |
| Employees.CodeOf | routes/employees.js:6-11 | n draws spell an n-character code of alphabet characters with no lower-case letter. |
| Employees.GenerateConnectCode | routes/employees.js:5-12 | The loop returns exactly `length` characters, or "" when `length` ≤ 0. The default length is 6. Character i is the one draw i picks, and every character is in the alphabet, with no lower case. |
| Employees.Addition | routes/employees.js:19-27 | One employee with the given name, phone and code and no deviceId is appended. When the code is already taken, the unique index rejects the save with 500 and nothing is inserted. |
| Employees.AdditionKeepsCodesUnique | models/Employee.js:7 | Adding an employee keeps connect codes unique. |
| Employees.Add | routes/employees.js:15-28 | The new store and the reply are those of `Addition`, with the code the first six draws spell. |
| Employees.NameLeTotal | routes/employees.js:32 | Any two names are ordered one way or the other. |
| Employees.NameLeTransitive | routes/employees.js:32 | The name order is transitive. |
| Employees.NameLeReflexive | routes/employees.js:32 | The name order is reflexive. |
| Employees.SortedByNamePairwise | routes/employees.js:32 | In the listing, every name is at most every later name. |
| Employees.ListByName | routes/employees.js:31-34 | `GET /` returns every stored employee, each once, sorted by name ascending. |
| EmployeeConnect.FindByCode | routes/EmployeeConnect.js:11 | Finds the first employee whose code equals the given one exactly. There is none exactly when no code is equal. |
| EmployeeConnect.UniqueCodeFindsHolder | models/Employee.js:7 | Under the unique index, the employee holding a code is the one found. |
| EmployeeConnect.Connection | routes/EmployeeConnect.js:11-20 | An unknown code gives 404 "Invalid connect code" and changes nothing. The number of employees is unchanged. |
| EmployeeConnect.ConnectionBindsOnlyHolder | routes/EmployeeConnect.js:17-20 | On a match, that employee's `deviceId` becomes the one supplied. Its other fields and all other employees are untouched. |
| EmployeeConnect.ConnectionIdempotent | routes/EmployeeConnect.js:17-18 | Repeating the same connect is idempotent. |
| EmployeeConnect.ConnectionKeepsCodesUnique | routes/EmployeeConnect.js:17-18 | Connecting keeps connect codes unique. |
| EmployeeConnect.NewEmployeeConnects | routes/EmployeeConnect.js:11-20 | An employee just added can be connected with the code it was given. |
| EmployeeConnect.Verify | routes/EmployeeConnect.js:7-25 | The new employee store and the reply are those of `Connection`. Only the employee collection is in the method's frame, so the call logs are not touched. |
| Admins.FindByEmail | routes/admins.js:11 | Finds the first administrator with the email. There is none exactly when no email is equal. |
| Admins.OrganizationField | routes/admins.js:22-24 | `organizationId` is kept exactly when it is present and its JavaScript `length` is 24, counted in UTF-16 code units. |
| Admins.AstralOrganizationIdFails | routes/admins.js:22-27 | An id whose `length` is 24 but that holds a character outside the Basic Multilingual Plane is kept. It then fails the ObjectId cast, so the reply is 500 and nothing is stored. |
| Common.Utf16Length | routes/admins.js:22 | `length` counts between one and two code units per character. |
| Common.Utf16LengthOfBmp | routes/admins.js:22 | For characters inside the Basic Multilingual Plane, `length` is the number of characters. |
| Common.Utf16LengthOfAstral | routes/admins.js:22 | A character outside the Basic Multilingual Plane counts two code units. |
| Admins.PreSave | models/Admin.js:16-26 | The hook changes only the password. Afterwards `bcrypt.compare` accepts exactly the plaintext the field held before: none, if it already held a hash. |
| Admins.SaveNew | routes/admins.js:26-27 | A kept `organizationId` that is not 24 hex digits fails the cast with 500. Otherwise exactly one document is appended, its password hashed by the hook. |
| Admins.Registration | routes/admins.js:7-34 | As written:<br>a registered email gives 400 "Email already registered" and inserts nothing;<br>only a success changes the store;<br>a success appends exactly one admin, whose password is the hook's hash of the route's hash of the plaintext. |
| Admins.RegistrationHashedOnce | routes/admins.js:7-34 | Registration as corrected: the same outcomes, except that the stored password is a single hash of the plaintext. |
| Admins.RegistrationFailureCases | routes/admins.js:14-27 | With a free email, registration fails with 500 exactly when the password is missing or the kept `organizationId` is not an ObjectId. |
| Admins.RegistrationKeepsEmailsUnique | routes/admins.js:11-12 | Both versions of registration keep emails unique. |
| Admins.Login | routes/admins.js:37-56 | An unknown email gives 404. A missing password gives 500. A password the stored hash rejects gives 401 "Invalid password". Otherwise the reply is the administrator `findOne` found by that email, whose hash accepts the password. |
| Admins.NewAdminIsFound | routes/admins.js:41 | A newly appended administrator with a fresh email is the one login finds. |
| Admins.LoginAfterRegistrationRejected | models/Admin.js:16-21 | As written, logging in with the password just registered always gives 401. |
| Admins.LoginAfterRegistrationHashedOnce | routes/admins.js:46-51 | After the corrected registration, login with the registered password returns that administrator. Any other password gives 401. |
| Admins.Register | routes/admins.js:7-34 | The new store and the reply are those of `Registration`. |
| Admins.RegisterHashedOnce | routes/admins.js:7-34 | The corrected route: the new store and the reply are those of `RegistrationHashedOnce`. |
| Bcrypt.CompareHashOfPlain | routes/admins.js:46 | A hash of a plaintext accepts that plaintext and no other. |
| Bcrypt.CompareRejectsDoubleHash | models/Admin.js:21 | A hash of a hash accepts no plaintext password. Hash texts are kept apart from plaintexts (see "Left out"). |
| Organizations.Creation | routes/organizations.js:7-21 | A name already stored gives 400 and inserts nothing. Otherwise the body is appended as exactly one new organization. |
| Organizations.CreationKeepsNamesUnique | routes/organizations.js:9-15 | Organization names stay unique. |
| Organizations.CreationIdempotent | routes/organizations.js:9-16 | Sending the same body twice creates one organization. The second reply is 400. |
| Organizations.FindAll | routes/organizations.js:25-28 | `GET /` returns every stored organization, each once. |
| Organizations.FindById | routes/organizations.js:35-42 | A malformed id gives 500. Otherwise the reply is 200 with the organization at that id, or `null` when none is stored there. |
| Organizations.CreatedIsFetchable | routes/organizations.js:14-38 | A created organization is fetched by its new id, and `GET /` lists it in addition to the organizations listed before. Earlier ids still fetch what they did. |
| Organizations.Create | routes/organizations.js:7-21 | The new store and the reply are those of `Creation`. |
| Db.Collection.Insert | routes/organizations.js:15 | `save()` on a new document appends it and changes nothing else. |
| Db.Collection.Put | routes/callLogs.js:147-151 | Writing one stored document back (`findByIdAndUpdate`, or `save()` on a document read earlier) changes only its position. |

## Left out

- The HTTP server, route mounting, the database connection and the subscription routes: they are plumbing or pass data through unchanged.
- `jwt.verify` is a function parameter (`Auth.Verifier`). The token format and signature checking are not modelled.
- bcrypt is a symbolic, collision-free hash (`Bcrypt`). The cost factor, the 72-byte truncation and salt generation are not modelled; salts are parameters.
- Bcrypt.CompareRejectsDoubleHash: plaintexts and hash texts are disjoint in the model. Real bcrypt hashes strings, so `compare` would accept the 60-character text of the inner hash. No route stores or returns that text, and a password never equals its own hash, so the finding below does not depend on this.
- `Math.random()` is a sequence of reals in [0, 1), each turned into an index by the same `Math.floor(r * 36)` as the source. Floating-point rounding is not modelled.
- `new Date(...)` and `parseInt` are not modelled. Times, `page` and `limit` are integers, and an unparsable value (NaN) is not modelled.
- CallLogs.EndOfDay: local time is a fixed offset from UTC; daylight-saving changes are not modelled.
- The `$regex` engine is not modelled. The pattern is digits only, so it is modelled as substring search, and the `i` option has no effect on it.
- `trim()` and `toUpperCase()` cover ASCII white space and ASCII letters only; Unicode white space and case mappings are not modelled.
- Mongoose's treatment of absent (`undefined`) fields in filters and documents is not modelled. The names, emails, phone numbers and organization fields of bodies are strings; only the fields whose absence the routes test are optional.
- A non-numeric `type` in a raw call record, query parameters given as arrays, and body fields of unexpected JSON types are not modelled, except for the `status` of `PUT /:id`.
- `bulkWrite` is modelled as the operations applied one after another. Unordered execution, partial failure and concurrent requests are not modelled.
- Storage failures (the generic 500 of each `catch`) are modelled only where the input itself causes them: a malformed ObjectId, a negative skip, a missing password, a taken connect code, or an `organizationId` that does not cast.
- Employees.ListByName: MongoDB leaves the order of equal names unspecified; the model fixes one order and its contract states only sortedness and the permutation.
- CallLogs.SortNewestFirst: MongoDB leaves the order of equal timestamps unspecified. The model fixes one order, and CallLogs.PageIsSliceOfSorted is stated against it. So which of several equal-timestamp rows fall on a page boundary is not promised by MongoDB.
- Organizations.FindAll: `find()` without a sort returns MongoDB's natural order, which is not guaranteed to be insertion order. The model returns stored order, but its contract and CreatedIsFetchable promise only the documents and their multiplicities.
- Employees.ListByName: names compare by character code, which agrees with MongoDB's binary string order but not with any collation.
- Admins.PreSave: the `isModified('password')` test is always true for the new documents the routes save, so its other branch is not modelled.
- Console logging and response bodies beyond status, message and payload are not modelled.
- No route links recordings, updates the latest log by device and number, normalises connect codes or migrates call logs on reconnect, so none of these appears in the model.

## Findings

| source | as written | input that shows it | evidently intended | confidence | as-written member | corrected member |
|---|---|---|---|---|---|---|
| models/Admin.js:16-21 | The route stores `bcrypt.hash(password)`, and the pre-save hook hashes that value again, so the stored password is a hash of a hash. `bcrypt.compare(password, stored)` then fails for the registered password. | Register `{email: "a@x", password: "pw"}`, then log in with `{email: "a@x", password: "pw"}`: the reply is 401 "Invalid password". | The password is hashed once, by either the route or the hook, and login with the registered password succeeds. | not executed; follows from the code | Admins.LoginAfterRegistrationRejected | Admins.LoginAfterRegistrationHashedOnce |

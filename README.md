# water_purifier_api core, modelled in Dafny

This project models the core of a small Express/PostgreSQL API for a product catalogue.
It covers four pieces of the server:

- **Key conversion** (`utils/caseConverter.js`). Keys are rewritten from camelCase to snake_case, recursively through arrays and objects.
- **Access-token gate** (`middleware/auth.js`). `authenticateToken` reads `Authorization: <scheme> <token>`, verifies the token with HS256 and the access secret, and stores the claims on the request. `authorizeRoles` lets a request through only when its role is exactly one of the allowed strings.
- **Account handlers** (`controllers/authController.js`):
  - `register` creates a user with a normalised role and stores a refresh token in the user's single slot.
  - `login` checks the password. It reuses the stored refresh token while that token is valid, and mints a new one when the slot is empty or expired.
  - `refresh` exchanges the stored refresh token for a new access token.
- **Product routes** (`routes/products.js`):
  - The search handler builds an SQL statement clause by clause, with `$1..$n` placeholders and a parallel parameter list.
  - The INSERT and UPDATE parameter arrays, with their defaults.
  - The 404 answers when a query returns no rows.
  - The admin gate in front of POST, PUT and DELETE.

Files and modules:

- `optional.dfy` (`Optional`): `Option`.
- `text.dfy` (`Text`): ASCII lower-casing, decimal numerals, and JavaScript's `split`/`join`.
- `json.dfy` (`JsonValues`): JSON values, property lookup, `Object.fromEntries` and `JSON.stringify`.
- `case_converter.dfy` (`CaseConverter`).
- `jwt.dfy` (`Jwt`): an idealised signed token. A token verifies to its claims only under its own key and an allowed algorithm, and it is expired from its `exp` on.
- `access_guard.dfy` (`AccessGuard`).
- `auth_controller.dfy` (`AuthController`).
- `products.dfy` (`Products`).

How the model is structured:

- Where the JavaScript changes state step by step, the model is imperative:
  - The middleware writes `req.user`, so `AccessGuard.Request` is a class with a mutable `user` field.
  - The `users` table is the class `AuthController.UserTable`. Its `Register`, `Login` and `Refresh` methods follow the handlers statement by statement.
  - The search handler is `Products.BuildSearch`. It appends to `q`, increments `idx` and pushes to `values`.
- Each method is proved against a pure specification:
  - `RegisterSpec`, `LoginSpec` and `RefreshSpec` are functions from a table value to a response and a new table.
  - `SearchSql` and `SearchValues` specify the search statement and its parameters.
- The properties the code promises are proved about those specifications.

Inputs the handlers take from outside are parameters of the model:

- the clock (`now`, in seconds);
- the two secrets;
- `bcrypt.compare`, as a function `compare`, and the hash `bcrypt.hash` produced;
- the decoding of token text, as `decode`;
- the rows the database returns.

## Model

| member | source | states |
|---|---|---|
| CaseConverter.ToSnakeCaseKey | utils/caseConverter.js:2-4 | the converted key has no upper-case letter; it is one character longer per capital; a key without capitals is unchanged |
| CaseConverter.ToSnakeCaseKeyConcat | utils/caseConverter.js:3 | the rewrite works character by character, so converting a concatenation concatenates the conversions |
| CaseConverter.LeadingCapital | utils/caseConverter.js:3 | a key starting with a capital gets a leading underscore (`Id` becomes `_id`) |
| CaseConverter.CapitalRun | utils/caseConverter.js:3 | a run of capitals doubles in length: each capital becomes an underscore followed by its lower-case letter (`URL` becomes `_u_r_l`) |
| CaseConverter.CapitalCollides | utils/caseConverter.js:3 | the renaming is not one-to-one: a capital and the underscore with its lower-case letter convert alike wherever they stand in a key (`aB` and `a_b` both become `a_b`) |
| CaseConverter.ToSnakeCaseKeyIdempotent | utils/caseConverter.js:2-4 | converting a converted key changes nothing |
| CaseConverter.ToSnakeCase | utils/caseConverter.js:6-15 | arrays stay arrays of the same length, objects stay objects with at most as many entries, and every other value is returned as is |
| CaseConverter.ToSnakeCaseArray | utils/caseConverter.js:7-8 | element `i` of a converted array is the conversion of element `i` |
| CaseConverter.ToSnakeCaseObjectLookup | utils/caseConverter.js:9-12 | in a converted object, a key holds the converted value of the LAST source entry whose key converts to it |
| CaseConverter.ToSnakeCaseObjectMissing | utils/caseConverter.js:9-12 | a key that no source key converts to is absent from the result |
| CaseConverter.ToSnakeCaseObjectOrder | utils/caseConverter.js:10-11 | without collisions the converted object has one entry per source entry, in the same order |
| CaseConverter.LaterCollidingEntryWins | utils/caseConverter.js:10-11 | two entries whose keys convert alike become one entry holding the later converted value; the earlier value is lost (`{aB: 1, a_b: 2}` becomes `{a_b: 2}`) |
| CaseConverter.ToSnakeCaseIsSnaked | utils/caseConverter.js:6-15 | after conversion, no key anywhere in the value contains a capital, and no object has two equal keys |
| CaseConverter.ToSnakeCaseIdempotent | utils/caseConverter.js:6-15 | converting a converted value changes nothing |
| JsonValues.RepeatedKeyLaterWins | utils/caseConverter.js:10 | of two entries with the same key, `Object.fromEntries` keeps a single entry with the later value |
| JsonValues.FromEntries | utils/caseConverter.js:10 | `Object.fromEntries`: keys become distinct, each key reads as the last entry with that key, and entries with distinct keys come back unchanged |
| AccessGuard.ExtractToken | middleware/auth.js:8 | `header.split(" ")[1]` exists exactly when the header contains a space, and it contains no space |
| AccessGuard.AnySchemeWord | middleware/auth.js:8 | the scheme word is never checked: any word before the space yields the same token |
| AccessGuard.HasToken | middleware/auth.js:8-18 | a token is usable exactly when the header is given, contains a space, and its second space-separated field is not empty |
| AccessGuard.Authenticate | middleware/auth.js:18-30 | 401 exactly when no non-empty token is present; the request passes exactly when the token verifies under the access secret with HS256 and has not expired; the user is then the token's claims |
| AccessGuard.NoTokenCases | middleware/auth.js:8-21 | no header, a header without a space, and a header with two spaces all give 401 |
| AccessGuard.OtherAlgorithmForbidden | middleware/auth.js:23-27 | a token signed with any algorithm other than HS256 gives 403 |
| AccessGuard.AuthenticateToken | middleware/auth.js:6-32 | the status is 401, 403 or pass exactly as `Authenticate` decides; on pass `req.user` becomes the claims, otherwise it is unchanged |
| AccessGuard.AuthorizeRoles | middleware/auth.js:35-47 | the request passes exactly when there is a user whose role is one of the allowed strings; otherwise 403 |
| AccessGuard.ExactRoleMatch | middleware/auth.js:39 | role matching is exact: `Admin` is not `admin`, one role does not imply another, and no user means 403 |
| AuthController.AccessToken | controllers/authController.js:6-13 | the access token verifies under the access secret to exactly `{id, email, role}` for 15 minutes, is expired afterwards, and is refused under any other key |
| AuthController.RefreshToken | controllers/authController.js:15-20 | the refresh token verifies under the refresh secret to `{id}` alone for 7 days, is expired afterwards, and is refused under any other key |
| AuthController.NormaliseRole | controllers/authController.js:27-29 | the role is always `vendor` or `admin`; it is the lower-cased request role when that is one of the two, and `vendor` otherwise |
| AuthController.RoleInAnyCase | controllers/authController.js:27-29 | a known role is recognised whatever its letter case (`ADMIN` and `Admin` give `admin`) |
| Jwt.Sign | controllers/authController.js:8-12 | a signed token verifies to its claims under its key, wherever HS256 is admitted, until its lifetime has passed, and is expired from then on; under any other key, or where HS256 is not admitted, it is refused |
| Jwt.Verify | controllers/authController.js:155 | a token is valid exactly when it is signed with the key under an admitted algorithm and `now` is before its expiry, and then its claims are returned; it is expired exactly when the signature and algorithm check out but `now` has reached the expiry; anything else is refused |
| AuthController.FindByEmail | controllers/authController.js:32-34 | the lookup returns the first row with that email, and none exactly when no row has it |
| AuthController.FindById | controllers/authController.js:158-160 | the lookup returns the first row with that id, and none exactly when no row has it |
| AuthController.SetRefreshToken | controllers/authController.js:123-126 | the rows with that id get the token in their slot and every other row is unchanged |
| AuthController.Present | controllers/authController.js:151 | an absent value and the empty string are not a token, and every signed token is one |
| AuthController.SlotFreshness | controllers/authController.js:98-118 | an empty slot is missing; a stored token signed with the refresh secret under an HMAC algorithm is live before its expiry and stale from it on; anything else stored is corrupt |
| AuthController.RegisterSpec | controllers/authController.js:23-78 | 400 exactly when the email is taken, with the table unchanged; otherwise 201, exactly one new row with the next id and the normalised role, the minted refresh token in its slot, and the answer carries that row's public part and the two tokens; a valid table stays valid |
| AuthController.LoginSpec | controllers/authController.js:80-144 | the answer is 200, 400 or 403; 400 exactly when the email is unknown or the password does not match; 403 exactly when the stored token fails verification for a reason other than expiry; the table changes only on 200; on 200 the answer has a fresh access token for the user and the user's role and email |
| AuthController.RefreshSpec | controllers/authController.js:147-189 | 401 exactly when no token is sent; 403 "expired" exactly when it has expired; 500 exactly when it fails verification otherwise; 403 "User not found" exactly when it verifies but no row has its id; 403 "Invalid refresh token" exactly when its user's slot holds something else; 200 exactly when it verifies, names an existing user and equals that user's stored token, and then the answer is a new access token for that user |
| AuthController.FindByIdUnique | controllers/authController.js:158-166 | in a valid table, looking up a row's id finds that row |
| AuthController.LoginRenewsMissingOrExpired | controllers/authController.js:98-128 | with the right password and an empty or expired slot, login stores a new 7-day refresh token in that user's slot only and returns it |
| AuthController.LoginKeepsLiveToken | controllers/authController.js:102-139 | with the right password and a still-valid stored token, login returns that very token and leaves the table as it was |
| AuthController.DuplicateRegistration | controllers/authController.js:37-39 | registering an email a second time is refused with 400 and adds nothing |
| AuthController.RefreshAfterRegister | controllers/authController.js:147-178 | for 7 days, the refresh token handed out at registration buys an access token for the new user |
| AuthController.LoginAfterRegister | controllers/authController.js:98-139 | a login within 7 days of registering, with the right password, returns the registration's refresh token and leaves the table unchanged |
| AuthController.RegisterExtends | controllers/authController.js:37-53 | register only ever appends rows at the end |
| AuthController.MismatchPersists | controllers/authController.js:169-172 | a token refused because it is not its user's stored token is never accepted after further registrations |
| AuthController.MismatchSurvivesOtherLogin | controllers/authController.js:121-128 | a token refused because it is not its user's stored token stays refused after the login of any other user, even one that renews that user's stored token; only its own user's login can replace the slot it was compared with |
| AuthController.RegisterKeepsSlotsCurrent | controllers/authController.js:57-64 | registering keeps every handed-out, still-valid refresh token in its user's slot, the new one included |
| AuthController.RenewalKeepsSlotsCurrent | controllers/authController.js:121-128 | overwriting an empty or expired slot with a new token keeps every handed-out, still-valid token in its slot |
| AuthController.EmptyTableSlotsCurrent | controllers/authController.js:44-53 | the invariant holds for the empty table with nothing handed out |
| AuthController.LoginKeepsSlotsCurrent | controllers/authController.js:98-139 | login keeps every handed-out, still-valid refresh token in its user's slot and every stored token among those handed out, and the refresh token a successful login returns is among them, whether renewed or kept |
| AuthController.IssuedTokenNeverSuperseded | controllers/authController.js:169-172 | with a clock that does not go back, a refresh token these handlers handed out is answered 200 while valid and "expired" afterwards, never "Invalid refresh token" |
| AuthController.UserTable.Register | controllers/authController.js:23-78 | the handler's response and new table are those of `RegisterSpec`, and the table stays valid |
| AuthController.UserTable.Login | controllers/authController.js:80-144 | the handler's response and new table are those of `LoginSpec`, and the table stays valid |
| AuthController.UserTable.Refresh | controllers/authController.js:147-189 | the handler's response is that of `RefreshSpec`; the table is not modified |
| AuthController.UserTable.Insert | controllers/authController.js:44-53 | the INSERT appends one row with the next serial id and an empty slot, and returns its public part |
| AuthController.UserTable.UpdateRefreshToken | controllers/authController.js:61-64 | the UPDATE sets the slot of the rows with that id and nothing else |
| Products.BuildSearch | routes/products.js:121-157 | an unknown `feature` is refused, exactly then; otherwise the statement is `SearchSql` of the given filters, the parameters are `SearchValues`, and the placeholders are `$1..$n` in order with `n` the number of parameters |
| Products.SearchSqlPlaceholders | routes/products.js:126-146 | for every combination of filters, the statement's placeholders are `$1, $2, …` in order of appearance, one per parameter |
| Products.SearchSqlFrame | routes/products.js:124-149 | the statement always starts with `SELECT * FROM products WHERE 1=1` and ends with ` ORDER BY name` |
| Products.NameSqlPlaceholders | routes/products.js:130 | the name clause holds exactly one placeholder, spelled with the digits of the current index |
| Products.FeatureSqlPlaceholders | routes/products.js:136-137 | an accepted feature clause holds no placeholder |
| Products.CustomFieldSqlPlaceholders | routes/products.js:145 | the custom-field clause holds exactly one placeholder, spelled with the digits of the current index |
| Products.NamePattern | routes/products.js:131 | the name parameter is the name lower-cased character by character, between two `%` |
| Products.NamePatternIgnoresCase | routes/products.js:131 | names that differ only in letter case give the same parameter |
| Products.CustomFieldFilter | routes/products.js:146 | the custom-field parameter is the one-entry JSON object `{"key":"value"}` |
| JsonValues.OrElse | routes/products.js:40-42 | JavaScript's logical or gives one of its operands, the left one when it is truthy, and is falsy only when both are |
| JsonValues.Field | routes/products.js:39-42 | `p.k` is the value the object's entries give the key (the last entry with it); a missing key or a non-object reads as `null` |
| JsonValues.Stringify | routes/products.js:40-42 | `JSON.stringify` gives at least two characters for anything but a one-digit number; a string comes out as its quoted text, the empty array as `[]`, and arrays and objects between brackets and braces |
| JsonValues.TruthyValues | routes/products.js:40-42 | the operand of `||` counts as false exactly when it is `null`, `false`, `0` or the empty string; every array and object, empty ones included, counts as true |
| Products.ListParam | routes/products.js:40-42 | a missing or falsy list is stored as `"[]"`, and any other value as its JSON text |
| Products.FlagParam | routes/products.js:41 | a flag is its own value when truthy and `false` otherwise |
| Products.ColumnKinds | routes/products.js:38-43 | the columns whose parameter falls back to `false` are exactly the three feature columns the search filters on, and the columns stored as JSON text are exactly `images` and `customFields` |
| Products.CreateValues | routes/products.js:34-43 | thirteen parameters; parameter `i` is the value for column `i` of the INSERT's column list |
| Products.UpdateValues | routes/products.js:56-65 | thirteen parameters; parameter `i` is the value for the `i`-th assigned column, and the path id is `$13` |
| Products.UpdateMatchesCreate | routes/products.js:60-65 | update writes the same value as create to every column except `id` |
| Products.CreateDefaults | routes/products.js:40-42 | a body without images, custom fields or flags stores `"[]"`, `"[]"` and three `false` |
| Products.RowReply | routes/products.js:22-23 | GET and PUT by id answer 404 exactly when the query returned no row, and otherwise the first row |
| Products.DeleteReply | routes/products.js:79-80 | DELETE answers 404 exactly when no row was deleted, and otherwise `{deleted: true, product: row}` |
| Products.CreateReply | routes/products.js:45 | POST answers 201 with the inserted row |
| Products.AdminGate | routes/products.js:31 | the chained guards let a request through exactly when its access token verifies and carries role `admin`; 401 exactly when there is no token; every other refusal is 403 |
| Products.CreateProduct | routes/products.js:31-45 | the INSERT runs exactly for admin requests, with `CreateValues` of the body |
| Products.UpdateProduct | routes/products.js:53-68 | the UPDATE runs exactly for admin requests, with `UpdateValues` of the body and path id |
| Products.DeleteProduct | routes/products.js:76-80 | the DELETE runs exactly for admin requests, for the path id |
| Text.LowerString | controllers/authController.js:27 | `toLowerCase` on ASCII text: the same length, each character lowered, and no capital remaining |
| Text.Split | middleware/auth.js:8 | `split` with a one-character separator gives at least one field, no field contains the separator, and there are two or more fields exactly when the text contains it |
| Text.DecimalRoundTrip | routes/products.js:130 | reading back the decimal text of an index gives the index |
| Text.JoinSplit | middleware/auth.js:8 | joining the fields of `split` with the separator gives back the header |
| Text.SplitJoin | middleware/auth.js:8 | splitting a join of separator-free fields gives the fields back |

## Left out

- The database is not executed. Queries are modelled by what they read and write: the rows a lookup returns, and the table a write leaves. Statement text is modelled only for the search.
- The 500 answers after a database error are left out: the `catch` blocks of `register`, `login`, `refresh` (a failed id lookup, controllers/authController.js:158, ends in the 500 at 186-187), every product route, and the search handler.
- Concurrency is left out. Two simultaneous registrations with the same email both pass the existence check in the source. Here each handler is one atomic transition of the table.
- Cryptography and the token wire format are idealised. A token is a value that records its algorithm, claims, key and lifetime, and `decode` stands for parsing the header's text. `jwt.verify`'s other options and errors (audience, not-before, a missing secret) are not modelled.
- bcrypt is left out. `bcrypt.compare` is a parameter, and so is the hash `bcrypt.hash(password, 10)` produces.
- AuthController.NormaliseRole: lower-casing covers ASCII only. JavaScript's `toLowerCase` also maps other alphabets, but no non-ASCII character lowers to a letter of `vendor` or `admin`, so the role outcome is the same.
- CaseConverter.ToSnakeCaseKey: both the capital test and the lowering cover ASCII only. JavaScript's `/[A-Z]/g` matches ASCII capitals only, as here, but its `toLowerCase` also lowers other alphabets (`Élan` becomes `élan` there and stays `Élan` here), and some characters lower to more than one code unit (`İ`), so the length formula holds for ASCII keys only.
- Products.NamePattern: lower-casing covers ASCII only. For non-ASCII names the pattern differs from JavaScript's `toLowerCase`.
- JSON numbers are integers. Floating-point prices and quantities pass through the product routes untouched, so nothing proved depends on them.
- JsonValues.FromEntries: keys keep insertion order. JavaScript's `Object.entries` lists integer-like keys first, and those are not moved to the front here.
- Search query values are strings. Express parses a repeated parameter (`?name=a&name=b`) into an array and a bracketed one into an object: `name.toLowerCase` then throws and the search answers 500 (routes/products.js:131 and 153-155), and an array or object `fieldKey` or `fieldValue` is stringified differently at routes/products.js:146. The model takes each parameter as absent or one string.
- Body values of unexpected types are not modelled: a numeric `role`, or an `email` that is not a string. The model takes the field types the handlers assume.
- `req.user` holds the claims `{id, email, role}` only. jsonwebtoken also adds `iat` and `exp`, which nothing in the core reads.
- Route matching is left out. `GET /:id` (routes/products.js:19) is registered before `GET /search` (routes/products.js:121), so Express routes `/search` to the id handler. The search builder is modelled as a function of its query parameters.
- `GET /` (routes/products.js:8-16) only runs a fixed query, and is left out.
- Logging (`console.*`) and reading `process.env` are left out. The secrets are parameters.
- `db.js`, `server.js` and `scripts/seed.js` are not part of this model. They cover connection setup, server wiring, and a loader that repeats the defaults of routes/products.js:38-43.
- Products.CreateReply: the 201 body for an INSERT that returns no row (`undefined` in JavaScript) is modelled as `null`. PostgreSQL's `RETURNING` always yields the inserted row.

## Findings

None of these is a defect that warrants a correction, so there is no findings table. Two behaviours are worth recording:

- **Invalid refresh tokens get 500.** When a submitted refresh token fails verification for a reason other than expiry, the `catch` in `refresh` (controllers/authController.js:179-188) answers 500 "Server error". That covers a wrong signature, a malformed token, or a disallowed algorithm. It is not a 403. `AuthController.RefreshSpec` states this as written.
- **A valid refresh token is never superseded.** The source can answer "Invalid refresh token" (controllers/authController.js:169-172) only for a token that is not in its user's slot. `login` replaces a slot only when it is empty or expired. So, with a clock that does not go back, a token these handlers handed out is never refused that way while it is still valid. `AuthController.IssuedTokenNeverSuperseded` proves this.

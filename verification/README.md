# Member routes of the chess-club API, modelled in Dafny

This project models the member resource handlers of a Fastify REST API for a chess club
(`src/routes/v1/members.js`). It covers:

- `POST /members`: its body schema as a validator, the schema's defaults, and the INSERT's bound values.
- `GET /members` and `GET /members/:id`.
- `PATCH /members/:id`: empty strings become null in place, then a parameterised UPDATE is built.
- `DELETE /members/:id`: the cascade delete.
- the shared mapping from a store error to a status code (`error.statusCode || 500`).

PostgreSQL is an abstract `Executor`: a function from a `Query` (the statement kind with its
bound parameters) to an `Answer` (rows and row count, or an error with an optional status code).
Each handler is a function of its request inputs and the executor. It returns the `Response`
(status and body) and the queries it issued, in order. That is how the model states what is
*not* sent to the store. `toSnakeCase` lives in `src/utils/utils.js`, which is not part of this
model. It is a parameter `snake: string -> string` about which nothing is assumed.

Modules:

- `Wrappers`: `Option`.
- `Json`: request values and ordered object entries.
- `SqlText`: decimal placeholders, `join(', ')`, and reading back the placeholder a text ends with.
- `Store`: queries and answers.
- `HttpStatus`: status codes (section 15 of RFC 9110) and `ErrorStatus`.
- `MemberSchema`: the POST schema.
- `MemberUpdate`: the PATCH normalisation and statement builder.
- `MemberRoutes`: the five handlers.

Behaviour of the code that the model keeps as written:

- A PATCH with an empty body on an existing member answers 404 "No fields provided", not 400.
- PATCH failures reuse the message "Could not fetch member".
- The DELETE failure body uses the key `message`; the other failure bodies use `msg`.
- `fideProfile` is declared in the schema, with a default, but the INSERT does not bind it
  (`CreateIgnoresFideProfile`).
- A store error whose `statusCode` is a success code (say 200) is answered with that code. So the
  contracts tell success from failure by the body, not by the status alone.
- An INSERT that returns no row makes `rows[0].id` throw inside the `try`. The answer is then 500
  "Could not add new member".

## Model

| member | source | states |
|---|---|---|
| SqlText.Decimal | src/routes/v1/members.js:141 | a placeholder number is printed as at least one decimal digit, with a leading zero only for 0 |
| SqlText.DecimalRoundTrip | src/routes/v1/members.js:141 | reading back the printed placeholder number gives the number |
| SqlText.DecimalInjective | src/routes/v1/members.js:141 | two placeholders print alike exactly when their numbers are equal |
| SqlText.Join | src/routes/v1/members.js:141 | `join(', ')`: no parts give the empty string; n parts give at least the last part plus n - 1 separators |
| SqlText.JoinSnoc | src/routes/v1/members.js:141 | `join(', ')` of one more part is the old join, `, ` and the new part |
| SqlText.EndsWithPlaceholder | src/routes/v1/members.js:141-143 | any text followed by `$` and a number names exactly that placeholder |
| SqlText.JoinEndsWithPlaceholder | src/routes/v1/members.js:141 | a join whose last part ends in `$n` ends in `$n` |
| HttpStatus.ErrorStatus | src/routes/v1/members.js:43 | the error's status code when present and non-zero, else 500 |
| MemberSchema.ValidCreateBody | src/routes/v1/members.js:9-26 | the POST schema as a predicate; an accepted body is an object with the five required properties, age at least 14, gender one of Male/Female/Other and fideRating null or at least 1 |
| MemberSchema.WithDefaults | src/routes/v1/members.js:16-22 | defaults are added for omitted properties only; present properties keep their values |
| MemberSchema.DefaultsSatisfySchema | src/routes/v1/members.js:16-22 | each declared default meets its own property's type and range |
| MemberSchema.DefaultsSupplyNoRequired | src/routes/v1/members.js:16-25 | defaults never supply a required property |
| MemberSchema.DefaultsKeepValidity | src/routes/v1/members.js:12-25 | a body is valid after defaults are filled in if and only if it was valid before |
| MemberSchema.InsertParams | src/routes/v1/members.js:30-39 | the INSERT binds eleven values in column order, each the body's value or its default |
| MemberSchema.OmittedAreDefaulted | src/routes/v1/members.js:16-22 | an omitted isActive is bound true, overDueSubscription false, and the nullable fields null |
| MemberSchema.InsertParamsValid | src/routes/v1/members.js:12-39 | every value bound for a valid body meets its property's constraint |
| MemberSchema.CreateIgnoresFideProfile | src/routes/v1/members.js:21-39 | changing fideProfile does not change the INSERT's bound values |
| MemberUpdate.Normalised | src/routes/v1/members.js:135-139 | same keys in the same order, no `''` left, every other value unchanged |
| MemberUpdate.NormaliseBody | src/routes/v1/members.js:135-139 | the in-place loop leaves the body equal to its normalised form |
| MemberUpdate.NormalisedKeepsKeys | src/routes/v1/members.js:135-139 | normalisation keeps every key and the key order |
| MemberUpdate.NormalisedValues | src/routes/v1/members.js:135-139 | a value is null afterwards iff it was null or `''`; every value other than `''` is unchanged |
| MemberUpdate.NormalisedIdempotent | src/routes/v1/members.js:135-139 | no `''` survives, and normalising twice equals normalising once |
| MemberUpdate.Assignments | src/routes/v1/members.js:141 | one assignment per key, the i-th naming placeholder i+1 |
| MemberUpdate.SetClause | src/routes/v1/members.js:141 | empty exactly for no keys; for n keys it ends with placeholder n |
| MemberUpdate.JoinedAssignmentsEnd | src/routes/v1/members.js:141 | the joined assignments are empty exactly for no keys and end with the last key's placeholder |
| MemberUpdate.UpdateSql | src/routes/v1/members.js:143 | the statement contains the SET clause and ends with placeholder n+1 for n keys |
| MemberUpdate.UpdateValues | src/routes/v1/members.js:144 | n+1 values: the body's values in key order, then the id |
| MemberUpdate.AssignmentsNumberedInOrder | src/routes/v1/members.js:141 | one assignment per key; the i-th is `snake(key_i) = $(i+1)` and names placeholder i+1 |
| MemberUpdate.SetClauseAppends | src/routes/v1/members.js:141 | the SET clause of one key is its assignment; each further key appends `, ` and its assignment |
| MemberUpdate.WherePlaceholder | src/routes/v1/members.js:143 | for n keys the WHERE clause names placeholder n+1 |
| MemberUpdate.PlaceholdersDistinct | src/routes/v1/members.js:141-143 | no two assignments, and no assignment and the WHERE clause, share a placeholder |
| MemberUpdate.EveryPlaceholderBound | src/routes/v1/members.js:141-144 | n+1 values; `$k` for k ≤ n is bound to the k-th body value and `$(n+1)` to the id |
| MemberUpdate.UpdateBindsNormalised | src/routes/v1/members.js:135-144 | the UPDATE of the normalised body binds `$k` to the k-th blanked value and `$(n+1)` to the id |
| MemberRoutes.Create | src/routes/v1/members.js:6-47 | invalid bodies issue no query and are refused with 400; valid ones issue one INSERT and get `{id}` iff it returned a row |
| MemberRoutes.List | src/routes/v1/members.js:65-77 | one SELECT, filtered iff the search term is present and non-empty; answers the rows and the row count |
| MemberRoutes.GetById | src/routes/v1/members.js:100-119 | one SELECT; 404 "Member not found" iff no row, otherwise the first row |
| MemberRoutes.Patch | src/routes/v1/members.js:121-155 | lookup first; an UPDATE of the normalised body iff the member exists and the body is non-empty; 200 with an empty body iff that UPDATE succeeded |
| MemberRoutes.HandlePatch | src/routes/v1/members.js:121-155 | answers as Patch; the request body is normalised in place exactly when the UPDATE is issued |
| MemberRoutes.Delete | src/routes/v1/members.js:157-184 | an empty id gives 400 with no query; otherwise one cascade delete, 204 iff it returned a row, 404 with an empty body iff it returned none |
| MemberRoutes.StoreErrorsMapped | src/routes/v1/members.js:42-182 | each handler answers a store error with its status code (500 when absent or zero) and its own fixed message |
| MemberRoutes.PatchChecksExistenceFirst | src/routes/v1/members.js:127-133 | a missing member gives "Member not found" whatever the body; an existing one with an empty body gives "No fields provided" and no UPDATE |
| MemberRoutes.PatchIssuesUpdate | src/routes/v1/members.js:127-146 | a PATCH that passes both checks issues the UPDATE of the normalised body as its second query |
| MemberRoutes.PatchBindsEveryPlaceholder | src/routes/v1/members.js:135-146 | the issued UPDATE binds `$k` to the k-th normalised value and `$(n+1)` to the id |
| MemberRoutes.UnderageRefused | src/routes/v1/members.js:14 | a body with age under 14 is refused before reaching the store |

## Left out

- SQL semantics: PostgreSQL runs the INSERT, the SELECTs, the UPDATE and the cascade DELETE. The
  executor is arbitrary, so no property relies on what the database does. This includes the
  `ORDER BY joined_at DESC` ordering and the atomicity of deleting the contacts with the member.
- The search filter text of `GET /members`: it splices the raw search term into the SQL, and its
  meaning is the database's. The model records only whether a filter is applied, and on which term.
- The SQL text of every statement except the generated UPDATE.
- A store error whose `statusCode` is neither 0 nor a code from 100 to 599: `reply.code` throws
  for it and Fastify's own error handler answers. The model admits only 0 and codes in that range
  (`HttpStatus.ErrorCode`); errors from the PostgreSQL driver carry no `statusCode` at all.
- Validation beyond the declared schema: Fastify's Ajv options such as type coercion. The 400
  answer to a refused body comes from the framework, and its body is modelled only as `Rejected`.
- A PATCH body that is not a plain object (absent, an array, a string). The body is modelled as the
  ordered key/value pairs `Object.keys` and `Object.values` give; JavaScript's key-ordering rules
  are not modelled.
- The authentication hook, route registration, response schemas, logging (`req.log.error`,
  `console.log`) and async scheduling: framework, I/O and concurrency concerns.
- `toSnakeCase`: its definition is not part of this model. It is a parameter with no properties.

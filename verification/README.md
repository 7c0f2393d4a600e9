# Validation, lookup and mapping core of the tutorial REST API

This project models the decision logic inside a small Express and Sequelize
tutorial API. Each part is a pure function, and lemmas state what it promises:

- **Hour classifier** (`api/lib/time.js`): `isValidHour` and `whatPartOfDay`.
  The file holds an unresolved merge conflict. Both sides of `isValidHour` are
  modelled. A lemma proves they agree wherever the HEAD side returns. The HEAD
  side throws a TypeError for a Symbol and for an object that cannot be
  converted to a number, where the incoming side returns false (see
  "## Findings"). The classifier is therefore built on the incoming side. The constants are
  those of the file: hours 0 to 23, daylight 7 to 17, so hour 24 is
  undetermined.
- **`/about/:id` route** (`index.js`, `api/index.js`): `isValidId`
  (`!isNaN(id) && Number.isInteger(Number(id))`), the user table,
  `findUserById`, and the handler as a function from the id string to a
  status and a body. The id is validated with `Number(id)` but looked up with
  `parseInt(id)`. `NumericLiteral.ParseIntAgreesWithNumber` proves that the
  two agree on every accepted id with a digit before the point. For ids such
  as ".0", `parseInt` yields NaN where `Number` yields 0. With the shipped
  table this cannot change the answer, because no user has id 0;
  `RootApp.AboutResponse` proves that. The api variant takes its
  `isValidId` and `findUserById` as parameters. It returns the response
  together with the keys the lookup was called with.
- **Note entity** (`api/src/models/note.entity.js`): the constructor,
  `toJSON`, and `fromSequelize`. `fromSequelize` picks its source in a fixed
  order: `toJSON()`, then `get({ plain: true })`, then `dataValues`, then the
  object itself. It then keeps the five note fields.
- **Repository factory** (`api/src/repositories/index.js`): `create`, as a
  case-insensitive choice between the two repository kinds.

JavaScript semantics that these depend on are modelled explicitly:
- `JsNumber`: numbers with NaN and infinities, and the relational operators,
  which are false whenever NaN is involved.
- `NumericLiteral`: `Number(string)` on decimal literals, and `parseInt`.
- `JsValue`: `typeof`, `Number.isInteger`, and relational coercion, including the TypeError it throws for symbols and for objects without a primitive value.

Modules: `Wrappers`, `JsNumber`, `NumericLiteral`, `JsValue`, `Time`, `Http`,
`RootApp` (index.js), `ApiApp` (api/index.js), `Notes`, `Repositories`.

## Model

| member | source | states |
|---|---|---|
| JsNumber.IsLessThan | api/lib/time.js:11 | a comparison is undefined exactly when an operand is NaN, and on finite numbers it is the order of the reals |
| JsNumber.ComparisonDuality | api/lib/time.js:11-17 | without NaN, `>=` and `<=` are the negations of `<` and `>`; with NaN all four are false |
| JsValue.TypeOf | api/lib/time.js:9 | `typeof` is "number" exactly for numbers and "string" exactly for strings |
| JsValue.ToNumeric | api/lib/time.js:11 | a number converts to itself; a Symbol, or an object with no primitive value, makes the conversion throw; every other non-object converts |
| Time.IsValidHourHead | api/lib/time.js:9-12 | the HEAD side answers true only for a number |
| Time.MergeSidesAgree | api/lib/time.js:8-21 | wherever the HEAD side of `isValidHour` returns, it agrees with the incoming side; it throws exactly where converting the value throws, which only symbols and objects do, and there the incoming side returns false |
| Time.ValidHourIsClockHour | api/lib/time.js:2-21 | a value is a valid hour iff it is the number of an integer from 0 to 23; strings such as "7", fractions, NaN, -1 and 24 are not |
| Time.WhatPartOfDay | api/lib/time.js:24-27 | the answer is "Undetermined" exactly when the value is not a valid hour |
| Time.WhatPartOfDayHead | api/lib/time.js:9-33 | `whatPartOfDay` on the HEAD side throws exactly where converting the value throws |
| Time.HeadAgreesWhereItReturns | api/lib/time.js:8-33 | wherever the HEAD version of `whatPartOfDay` returns, its answer is the incoming version's |
| Time.HeadThrowsOnSymbol | api/lib/time.js:11 | on the HEAD side, `whatPartOfDay` of a Symbol or of `Object.create(null)` throws; on the incoming side it is "Undetermined" |
| Time.ClassifyClockHour | api/lib/time.js:28-33 | for hours 0 to 23 the answer is "Daylight" iff 7 <= h <= 17, and "Night" otherwise |
| Time.NonHourUndetermined | api/lib/time.js:15-27 | every value that is not one of the hours 0 to 23 is undetermined, symbols and objects included |
| Time.ClassifiedIsClockHour | api/lib/time.js:24-34 | a "Daylight" or "Night" answer implies the value is an integer hour in [0, 23] |
| Time.LabelsDistinct | api/lib/time.js:26-33 | the three answers are distinct strings |
| Time.DayOrNightExamples | api/__test__/dayornight.test.js:3-26 | 7 and 12 are daylight, 18 and 3 are night; -1, 25, 24, 3.5, NaN, "7", null, a Symbol and a boxed 7 are undetermined |
| NumericLiteral.DigitRun | index.js:31 | the length of the maximal run of leading digits, the prefix `parseInt` reads |
| NumericLiteral.SplitSign | index.js:31 | a leading '-' or '+' is split off, and sign text plus remainder rebuilds the input |
| NumericLiteral.Parse | index.js:18 | a recognised string is a valid decimal literal whose text is the string |
| NumericLiteral.ParseUnsigned | index.js:18 | what is recognised after a sign is a valid literal whose text is the sign followed by that input |
| NumericLiteral.ParseText | index.js:18 | every valid literal is recognised from its own text, so recognition and printing are inverse |
| NumericLiteral.ToNumber | index.js:18 | the modelled `Number(s)`, on decimal literals with exact values, is NaN or finite; overflow to Infinity is not modelled (see "## Left out") |
| NumericLiteral.ParseInt | index.js:31 | `parseInt(s)` is NaN or an integer |
| NumericLiteral.ParseIntOfLiteral | index.js:31 | `parseInt` of a literal is its signed whole part, or NaN when no digit precedes the point |
| NumericLiteral.IntegerIffZeroFraction | index.js:18 | a literal denotes an integer iff its fraction digits are all zeros ("2.0" does, "1.5" does not) |
| NumericLiteral.IntegerNumberIff | index.js:18 | `Number(s)` is an integer iff s is a decimal literal with an all-zero fraction |
| NumericLiteral.ParseIntAgreesWithNumber | index.js:18-31 | for an id that passes validation, `parseInt` equals `Number` when a digit precedes the point; otherwise `parseInt` is NaN and `Number` is 0 |
| RootApp.ValidIdIff | index.js:18 | `isValidId` accepts exactly the texts of decimal literals whose fraction digits are all zeros |
| RootApp.FindUserById | index.js:21 | returns nothing iff no user has the key as id; otherwise the first user whose id strictly equals the key |
| RootApp.UsersHaveDistinctIds | index.js:6-10 | no two users in the table share an id |
| RootApp.FindUniqueMatch | index.js:21 | in a table without repeated ids, the user found for a key is the one user holding it |
| RootApp.AboutResponse | index.js:23-39 | an invalid id gives 400 "Invalid id format"; a valid one gives 200 with the user whose id is the number the id denotes, or 404 "User not found" when none has it |
| RootApp.IntegerLiteral | index.js:18-31 | the text of an integer-valued literal passes validation, denotes its signed whole part, and `parseInt` reads the same unless no digit precedes the point |
| RootApp.InvalidIdExamples | index.js:18 | "abc" and "1.5" are rejected |
| RootApp.OneIsValid | index.js:18 | "1" is valid and both conversions give 1 |
| RootApp.TwoIsValid | index.js:18 | "2" is valid and both conversions give 2 |
| RootApp.MinusOneIsValid | index.js:18 | "-1" is valid and both conversions give -1 |
| RootApp.TwoPointZeroIsValid | index.js:18-31 | "2.0" is valid and is looked up as 2 |
| RootApp.NineNineNineIsValid | index.js:18 | "999" is valid and both conversions give 999 |
| RootApp.PointZeroIsValidWithoutKey | index.js:18-31 | ".0" is valid with value 0, but its `parseInt` is NaN |
| RootApp.AboutFoundExamples | __test__/endpoints.test.js:15-36 | ids "1" and "2" give 200 with Alice and Bob, and "2.0" gives Bob |
| RootApp.AboutNineNineNine | __test__/endpoints.test.js:23-28 | id "999" gives 404 "User not found" |
| RootApp.AboutMinusOne | index.js:31-36 | id "-1" is valid but gives 404 |
| RootApp.AboutInvalidExamples | index.js:26-29 | ids "abc" and "1.5" give 400 "Invalid id format" |
| ApiApp.About | api/index.js:16-32 | an invalid id gives 400 with no lookup; a valid id gives exactly one lookup, with `parseInt(id)`, then 404 when it finds nothing or 200 with the found user unchanged |
| ApiApp.LookupOnlyAfterValidation | api/index.js:19-24 | whatever the helpers, the lookup runs at most once, exactly when the id passed validation, and the status is 400 exactly when it did not |
| ApiApp.AgreesWithRootApp | api/index.js:16-32 | with index.js's `isValidId` and `findUserById` plugged in, the api route answers as the index.js route does |
| ApiApp.AboutExamples | api/__test__/endpoints.test.js:120-209 | "2.0" is looked up once as 2 and returns Bob; "-1" is looked up once as -1 and gives 404; "abc" and "1.5" give 400 with no lookup |
| Notes.ToJSONOfConstruct | api/src/models/note.entity.js:6-26 | `toJSON()` has exactly the five note fields, each as given to the constructor (undefined when absent) |
| Notes.ConstructOfToJSON | api/src/models/note.entity.js:6-26 | constructing from `toJSON()` rebuilds the entity |
| Notes.FromSequelize | api/src/models/note.entity.js:33-34 | the result is null exactly when the input is falsy |
| Notes.SourcePriority | api/src/models/note.entity.js:36-42 | fields come from `toJSON()` if present, else `get({plain:true})`, else a truthy `dataValues`, else the object itself |
| Notes.ProjectsNoteFields | api/src/models/note.entity.js:44-50 | the result holds the five fields of the chosen source and nothing else; sources that agree on those fields give the same entity |
| Notes.EntityRoundTrip | api/src/models/note.entity.js:18-50 | `fromSequelize(e)` rebuilds e, so `fromSequelize(e).toJSON()` equals `e.toJSON()` |
| Notes.PlainRoundTrip | api/src/models/note.entity.js:40-50 | `fromSequelize(e.toJSON())` rebuilds e from the plain object |
| Notes.FromSequelizeIdempotent | api/src/models/note.entity.js:33-50 | mapping an already mapped note again gives the same entity |
| Repositories.ToLowerCase | api/src/repositories/index.js:16 | lower-casing keeps the length and lower-cases every character in place |
| Repositories.ToLowerCaseEqualIff | api/src/repositories/index.js:16 | two strings lower-case alike iff they differ only in letter case |
| Repositories.ToLowerCaseIdempotent | api/src/repositories/index.js:16 | lower-casing twice is lower-casing once |
| Repositories.CreateDefault | api/src/repositories/index.js:15-18 | `create()` and `create(undefined)` behave as `create('sequelize')` and give the Sequelize user repository |
| Repositories.CreateThrowsIff | api/src/repositories/index.js:15-16 | `create` throws a TypeError exactly when its argument is neither a string nor `undefined` (`null` and numbers included) |
| Repositories.CreateNotesIff | api/src/repositories/index.js:16-27 | the notes repository is chosen iff the argument spells "sequelize-notes" in some mix of cases; every other string gives the user repository |
| Repositories.CreateIgnoresCase | api/src/repositories/index.js:16 | arguments that differ only in case give the same repository |
| Repositories.CreateExamples | api/src/repositories/index.js:15-27 | "SEQUELIZE" and "postgres" give the user repository; `null` and 5 throw |
| Repositories.CreateUpperCaseNotes | api/src/repositories/index.js:19-20 | "SEQUELIZE-NOTES" gives the notes repository |

## Left out

- Express plumbing is not modelled. That covers route registration, `res.status`/`res.send`, the `/` and `/reverse/:str` routes, and `app.listen`. Each `/about/:id` handler is a function from the id string to a status and a body.
- `./lib/string` is not part of this model. That module holds `reverseString` and the api variant of `isValidId` and `findUserById`, so the api route takes those two as parameters.
- `./sequelize.repository` and the notes repository are not part of this model. `create` returns a repository kind instead of a new object.
- The Sequelize model, the repository interface and all async code are left out. Everything is modelled synchronously.
- `Number(string)` covers decimal literals only: an optional sign, digits, and an optional point with digits. Some strings JavaScript accepts become NaN here, so those ids count as invalid:
  - exponents;
  - `Infinity`;
  - surrounding whitespace;
  - the empty string;
  - 0x/0o/0b forms.
- JavaScript's `Number` and `parseInt` also disagree outside the modelled grammar, so `NumericLiteral.ParseIntAgreesWithNumber` does not cover these ids:
  - exponent and 0b/0o forms: "1e1" is 10 but is looked up as 1;
  - the empty or whitespace-only string: `Number(" ")` is 0, so the id passes validation, but `parseInt(" ")` is NaN, so index.js answers 404. The model rejects such an id and answers 400.
- NumericLiteral.ToNumber: does not overflow. In JavaScript a literal whose value is above roughly 1.8e308 (any with 310 or more integer digits after its leading zeros) converts to Infinity. `isValidId` is then false and index.js answers 400; the model calls such an id valid and answers 404.
- Numbers are exact reals. Rounding to 64-bit doubles is not modelled: "2.0000000000000001" counts as an integer in JavaScript but not here. Integers beyond 2^53 and the sign of zero are not modelled either.
- NumericLiteral.ParseInt: skips no leading whitespace and does not read a 0x prefix as hexadecimal. No id that passes index.js's modelled `isValidId` has either.
- ApiApp.About: records the key the modelled `parseInt` gives. That key differs from JavaScript's for ids with leading whitespace or a 0x/0X prefix, which a validator passed as a parameter may accept. For "0x2", JavaScript's key is 2 and the model's is 0; for " 2", JavaScript's key is 2 and the model's is NaN.
- An object's conversion to a primitive is not computed from its `valueOf` and `toString`. Each object carries the primitive that conversion yields, or none when it throws. Calling those methods twice, and any side effects they have, is not modelled.
- BigInt values are not modelled. `typeof` would report "bigint", so both sides of `isValidHour` reject them without throwing.
- `toLowerCase` maps ASCII letters only. Other characters are left unchanged.
- Repositories.Create: treats every object argument as lacking `toLowerCase`, so it throws. A `String` wrapper object, or an object with its own `toLowerCase` method, would not throw in JavaScript.
- The api route's test doubles are not reconciled with the route. Their `findUserById` takes one argument and resolves to arrays, while the route calls `findUserById(users, id)` and treats any truthy result as a user. The model states the route's own behaviour.
- `new NoteEntity()` with a missing or null argument throws in JavaScript. Here the constructor takes a record, and absent fields read as `undefined`.
- A `toJSON()` or `get()` that returns a primitive is not modelled. The candidate's data sources are records.
- `dataValues` is kept apart from the object's other properties.
- RootApp.FindUserById: takes the table as a parameter, where index.js closes over its `users` constant. The route always passes that constant.

## Findings

| source | as written | input that shows it | evidently intended | confidence | as-written member | corrected member |
|---|---|---|---|---|---|---|
| api/lib/time.js:11 | the HEAD side of `isValidHour` evaluates `hour >= MIN_HOUR` before it uses its type check, and that comparison throws a TypeError when `hour` cannot be converted to a number | `whatPartOfDay(Symbol())`, `whatPartOfDay(Object.create(null))` | `isValidHour` returns false and `whatPartOfDay` returns "Undetermined" for every input that is not an hour, as the incoming side does | high; not executed | Time.HeadThrowsOnSymbol | Time.NonHourUndetermined |

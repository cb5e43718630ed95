# db.js core, modelled in Dafny

`db.js` is a small MySQL helper for Node. It gives you:

- **Query formatting.** A formatter is installed on the pool
  (`escape`). Each `?` in a template takes the next insert, escaped.
  An object insert right after `WHERE` is compiled into a predicate by
  `escape.WHERE`.
- **Execution.** A function `db(sql, param, callback)` runs one query on a
  pooled connection. It delivers the result in one of two ways: all rows
  at once to a callback, or row by row to a handler object. In row-by-row
  mode, backpressure is a counter of unacknowledged rows that pauses and
  resumes the connection.
- **Template loading.** A loader `db.load(file)` scans a SQL file for
  blocks of the form `/*Name*/statement`. It registers one bound query per
  block.

The project models these three parts. Each module follows the program's
own structure:

- `text.dfy` (module `Text`): the string primitives the source relies on.
  These are JavaScript's `trim`, the `WHERE\s*$` test, `join`, and
  `slice(0, -n)`.
- `values.dfy` (module `Values`): the JavaScript values the core inspects,
  and thrown exceptions as `Result`. The escaper `mysql.escape` is a
  parameter, `esc`.
- `where.dfy` (module `Where`): `escape.WHERE`.
  - The function `Compile` is the reference.
  - The method `Where` is the loop over the keys, which appends into
    `sql`. It is proved equal to `Compile`.
  - Each block of `handle` is its own appending method.
- `placeholders.dfy` (module `Placeholders`): `escape`.
  - The function `Subst` specifies the left-to-right replacement.
  - The method `Escape` is the replacement loop. It shifts inserts off the
    front of the queue.
- `execution.dfy` (module `Execution`): argument normalisation, the choice
  of delivery mode, and the buffered completion. The streaming session is
  a class, `StreamSession`, whose event methods update the counter and the
  paused/released state in place.
- `templates.dfy` (module `Templates`): the scanner of `db.load`.
  - `MatchAt` and `FindMatch` are the global regular expression
    `/\/\*([a-zA-Z]+)\*\/([^\/]+)/g`, with `lastIndex` passed explicitly.
  - The method `Load` is the `while (match)` loop that fills `queryObject`.

Notable behaviour of the code, which the model keeps:

- The WHERE dispatch is a case-sensitive test of the template text before
  the `?`.
- There is no `??` identifier placeholder, and nothing handles `ORDER BY`,
  `SET`, `IS NULL` or `&&`.
- Clauses are joined with `" && "`.
- `handle` has no early return: the trailing comparison is appended for
  every key. So a password key, a LIKE key or an array value also gets a
  `column = value` test.
- The streaming `error` handler throws without releasing the connection.
  Only the `end` event, if the driver emits it afterwards, releases it.
- A formatter throw (a non-array `param`, or the two-bar key) happens
  inside `connection.query`. That is after the connection was taken and
  before anything releases it.
- `end` releases the connection even while rows are unacknowledged.
- The acknowledgement function has no guard against being called twice,
  nor against being called after `end`. A late acknowledgement resumes a
  connection that was already released.

## Model

| member | source | states |
|---|---|---|
| Text.Trim | db.js:291 | the result is the input with a whitespace-only head and a whitespace-only tail cut off, and it neither starts nor ends with whitespace |
| Text.TrimIdempotent | db.js:291 | trimming an already trimmed text changes nothing, so the second `trim()` in `makeQuery` is a no-op |
| Text.EndsWithWhereIff | db.js:34 | the WHERE test holds exactly when the text is some prefix ending in `WHERE` followed only by whitespace |
| Text.TerminatedIsJoin | db.js:110-118 | appending the joiner after every fragment and then cutting one joiner off gives the fragments joined by it |
| Text.DropLast | db.js:118 | `slice(0, -n)` with `n` at least 1 removes exactly the last `n` characters; it gives the empty string for a shorter text, and also for `n = 0`, where `-0` is `0` |
| Values.FalsyValues | db.js:208-209 | a value is falsy exactly when it is `null`, `false`, `0` or the empty string; empty arrays and objects, `"0"` and functions are truthy |
| Values.Lookup | db.js:208-209 | a property read finds the value stored under the key; it is absent exactly when no field has that key |
| Where.PasswordKeyIff | db.js:59 | the password test holds exactly when the key ends with `password` or with `password!` |
| Where.LikeKeyIff | db.js:81 | the LIKE test holds exactly when the key ends with ` LIKE` or contains ` LIKE ` |
| Where.Paren | db.js:47-49 | the helper `b` puts one parenthesis on each side of its argument and leaves it intact between them |
| Where.OperatorSuffix | db.js:53 | an operator is found exactly when the key ends in `!`, `<` or `>`, and it is that character |
| Where.Column | db.js:105-108 | the column name is the key, or the key with its operator character removed |
| Where.Hashed | db.js:65-68 | one `SHA1(escaped)` per array element, in order |
| Where.Likes | db.js:83-85 | one `key escaped` per array element, in order |
| Where.AppendHashedIn | db.js:62-69 | appends `password IN(...)`, or `NOT IN` when negated |
| Where.AppendHashedEquals | db.js:70-74 | appends `password = SHA1(...)`, or `!=` when negated |
| Where.AppendPassword | db.js:59-75 | the password block appends its hashed test for password keys and nothing otherwise |
| Where.AppendLike | db.js:81-89 | the LIKE block appends its test for LIKE keys and nothing otherwise |
| Where.AppendIn | db.js:104-106 | the array block appends the IN test for array values and nothing otherwise |
| Where.AppendComparison | db.js:108 | every key appends `column op= value` |
| Where.Handle | db.js:51-111 | `handle` appends its key's fragment and the joiner to the text so far, or throws for the reserved key made of two bars |
| Where.Clauses | db.js:100-116 | the text accumulated over the keys can only fail with the "not ready" exception |
| Where.Compile | db.js:44-119 | the compiled predicate can only fail with the "not ready" exception |
| Where.Where | db.js:44-119 | the loop over the keys returns exactly the compiled predicate or the exception |
| Where.ClausesTerminated | db.js:110-116 | with no two-bar key, the accumulated text is every key's fragment in key order, each followed by the joiner |
| Where.ClausesFail | db.js:100-102 | a two-bar key anywhere makes the whole call throw "not ready" |
| Where.WhereShape | db.js:44-119 | the call throws exactly when some key is the two-bar key; otherwise the result is the fragments joined by `" && "`, and `{}` gives the empty string |
| Where.FragmentEndsWithComparison | db.js:108 | every fragment ends with the comparison `column op= value`, whatever the earlier blocks emitted |
| Where.ScalarFragment | db.js:104-108 | for a plain key and a scalar, the fragment is `key = v`, or `column op= v` for a key ending in an operator |
| Where.InPartShape | db.js:104-106 | the array block emits `column IN(v)`, or `column NOT IN(v)` under any operator suffix |
| Where.ArrayFragment | db.js:104-108 | for a plain key and an array, the fragment is the IN test followed by the comparison |
| Where.PasswordPartShape | db.js:59-75 | for a password key, the block emits the hashed test, negated exactly when the key ends in an operator character |
| Where.PasswordBang | db.js:53-59 | a key ending in `password!` carries the operator `!` |
| Where.PasswordFragment | db.js:59-108 | a password key that is not also a LIKE key has as its fragment the hashed test, then the array block, then the comparison, negated under `password!` |
| Where.LikeFragment | db.js:81-108 | a LIKE key that is not also a password key has as its fragment `key v`, or the parenthesised disjunction of one test per element, before the rest |
| Where.BothKindsExample | db.js:59-81 | a key such as `x LIKE password` passes both the password test and the LIKE test |
| Where.PasswordLikeFragment | db.js:59-108 | a key of both kinds gets the hashed test, then the LIKE test, then the array block and the comparison |
| Where.GreaterOrEqualExample | db.js:104-118 | `{"age>": 5}` compiles to `age >= 5` |
| Placeholders.Render | db.js:33-40 | rendering one insert fails only under the WHERE dispatch, and then with the "not ready" exception |
| Placeholders.RenderOutcome | db.js:33-40 | rendering throws exactly when the WHERE dispatch applies and the object has the two-bar key; outside the dispatch the insert is escaped |
| Placeholders.Subst | db.js:25-42 | the substitution can only fail with the "not ready" exception |
| Placeholders.Replacement | db.js:26-41 | one `?` is left as it is when no insert remains, or takes the first insert, rendered against the text before it, and the rest of the substitution continues from there |
| Placeholders.MarksZero | db.js:26 | a template has no `?` exactly when none of its characters is `?` |
| Placeholders.MarksAt | db.js:26 | a template with a `?` anywhere has at least one |
| Placeholders.Format | db.js:25-42 | an array `param` is substituted; any other `param` leaves the text unchanged when it has no `?` or a `length` of 0, and otherwise throws a TypeError |
| Placeholders.FormatUnmarked | db.js:26 | a template without `?` is returned unchanged whatever `param` is |
| Placeholders.Escape | db.js:25-42 | the replacement loop returns exactly the specified substitution and the inserts it left, or the exception from WHERE |
| Placeholders.SubstLiteral | db.js:26 | template text without `?` is copied unchanged and consumes no insert |
| Placeholders.SubstExhausted | db.js:27-29 | once the inserts are used up, every remaining `?` stays as it is |
| Placeholders.SubstConsumes | db.js:27-40 | a successful substitution consumes one insert per `?`, or all of them when there are fewer, and leaves the rest in order |
| Placeholders.SubstStep | db.js:26-40 | text up to the next `?` is copied, that `?` takes the first insert rendered against the template before it, and the rest continues with the remaining inserts; replacement text is never rescanned |
| Placeholders.SubstSingle | db.js:33-40 | a single trailing `?` becomes the rendering of its insert, or the substitution throws its exception |
| Placeholders.WhereObjectRender | db.js:33-37 | an object after `WHERE ` is compiled by `escape.WHERE` instead of being escaped |
| Placeholders.TwoValuesExample | db.js:25-42 | `... a=? AND b=?` with `[1, "x"]` gives both escaped values in order and leaves no insert |
| Placeholders.WhereObjectExample | db.js:25-42 | `SELECT * FROM t WHERE ?` with `{"age>": 5}` gives `SELECT * FROM t WHERE age >= 5` |
| Execution.NormalizeArgs | db.js:170-182 | with two arguments, an array `param` gets `noop`, a function or plain object becomes the callback with `param = []`, anything else leaves the callback undefined; other arities are untouched |
| Execution.TwoArgumentDelivery | db.js:170-182 | a two-argument call with an object streams to that object, with an array or a function it is buffered to a callable, otherwise the callback is undefined |
| Execution.DeliveryOf | db.js:207 | streaming is chosen exactly when the callback is a plain object |
| Execution.LimitOf | db.js:209 | a nonzero number is the limit; an absent or falsy option means no limit |
| Execution.RowHandler | db.js:208 | the row handler is `row` when truthy, else `result` when truthy, else `noop`; it is always truthy |
| Execution.OptionsOf | db.js:207-240 | the row handler is the truthy `row`, else the truthy `result`, else `noop`; `end` is called exactly when it is a function; the limit comes from `concurrency` |
| Execution.Startup | db.js:195-212 | a connection failure ends the call first; otherwise a formatter exception ends it; otherwise the call goes on |
| Execution.BufferedRun | db.js:195-262 | for a callback that is not a plain object: a startup throw is the only effect and nothing is released; otherwise the connection is released first and exactly once, and then the query error is thrown, or the callback runs when it is a function, or calling it throws |
| Execution.ScalarParamNeverReleases | db.js:170-182 | `db(sql, 5)` with a `?` in `sql` keeps `5` as `param`, the formatter throws, and the connection is never released |
| Execution.OrKeyNeverReleases | db.js:33-37 | a two-bar key after `WHERE` throws inside the formatter, so the connection is never released and the callback never runs |
| Execution.StreamingStart | db.js:195-212 | a streaming call starts a session exactly when no startup throw ends it first; the session's row handler and limit are those read from the handler object |
| Execution.StreamSession.constructor | db.js:207-210 | a new session keeps the chosen row handler, has a zero counter, is neither paused nor released, and has had no effects |
| Execution.StreamSession.BeginRow | db.js:216-219 | a row raises the counter by one and is delivered to the handler; the counter never exceeds a limit of at least 1 |
| Execution.StreamSession.Ack | db.js:219-225 | an acknowledgement lowers the counter by one and resumes the connection whenever the counter is below the limit |
| Execution.StreamSession.EndRow | db.js:227-229 | after the handler returns, the connection is paused exactly when the counter has reached the limit |
| Execution.StreamSession.End | db.js:232-243 | `end` releases the connection once, then calls `end` when it is a function, even with rows unacknowledged or after an error |
| Execution.StreamSession.Error | db.js:213-215 | a query error throws and leaves the connection unreleased |
| Templates.LetterRun | db.js:267 | the greedy run of letters `[a-zA-Z]+` ends at the first non-letter |
| Templates.BodyRun | db.js:267 | the greedy run `[^\/]+` ends at the first `/` or at the end |
| Templates.MatchAt | db.js:267 | a match at a position is `/*name*/body` with a letter-only name and a non-empty body free of `/`, ended by `/` or the end of the text |
| Templates.MatchAtComplete | db.js:267 | every occurrence of the pattern is found at its position, with the same name and a body at least as long |
| Templates.FindMatch | db.js:295-299 | `exec` from `lastIndex` returns the leftmost match at or after it, or nothing when none exists |
| Templates.Scan | db.js:295-300 | every visited block takes at least one character, so the loop visits at most as many blocks as there are characters after `lastIndex` |
| Templates.StripSemicolon | db.js:291 | `replace(/;$/, '')` removes one trailing `;` and nothing else |
| Templates.MakeQuery | db.js:274-292 | a registered query's statement is the trimmed body, and its `.sql` is that statement less one trailing `;` |
| Templates.Load | db.js:266-303 | the loop returns exactly the registry built from every block in the file, in file order |
| Templates.ScanSound | db.js:295-300 | the blocks visited are genuine matches, in order and not overlapping |
| Templates.ScanLeftmost | db.js:295-300 | no match is skipped before the first block or between two consecutive blocks |
| Templates.ScanComplete | db.js:297-300 | no match remains after the last block, so the loop stops only when the file is exhausted |
| Templates.RegisterKeys | db.js:290 | registering blocks adds exactly their names to the object's keys |
| Templates.Registry | db.js:270-302 | the returned object's keys are `query` and the names of the blocks, and nothing else |
| Templates.RegisterLast | db.js:290-291 | registering blocks in order leaves each name bound to the entry of its last block |
| Templates.RegisterUntouched | db.js:290-291 | a name no block carries keeps its earlier entry or stays absent |
| Templates.RegistryLast | db.js:270-302 | in the returned object, the last block with a name decides its entry; `query` stays the driver unless a block is named `query` |
| Templates.TrimNoSlash | db.js:298 | trimming a body without `/` keeps it without `/` |
| Templates.RegistryShape | db.js:270-302 | the returned object always has `query`; every name is letters only; every statement is trimmed and free of `/`, and its `.sql` drops at most one trailing `;` |

## Left out

- The connection pool, `mysql.createPool`, `getConnection` and the query
  call itself are the driver's. They appear only as events (connection
  failure, query failure, row, end, error) and as effects (release, pause,
  resume).
- `mysql.escape` is left abstract: it is the parameter `esc`. The `is`
  type tests are the constructors of `Value`.
- Reading the template file (`fs.readFileSync` as ASCII) is out: `Load`
  takes the file's contents.
- Debug mode is out: `Date.now`, the per-call statistics,
  `manageQueryStatistic`, the `process.on("exit")` hook and the stats
  file. In debug mode `db.load` also adds a `statistics` entry to the
  returned object (db.js:276-282). The model covers the registry without
  debug mode, where that key never appears.
- `console.log(sql, param)` before a query error is thrown (db.js:257) is
  output only, and is out.
- `db.bind(queryObject, sql)` is represented by the bound statement
  (`Query.statement`). Calling a registered query is `db` with that
  statement.
- Dates, Buffers and floating-point numbers are not among the modelled
  values. Integers stand for JavaScript numbers.
- An object is a list of fields. A JavaScript object never repeats a key,
  and the model does not enforce that: with a repeated key, `Lookup`
  reads the first field and `escape.WHERE` visits every field.
- The write-back `callback.row = ...` (db.js:208) is not modelled as a
  change to the caller's object. The session keeps the chosen handler
  in its `row` field instead.
- The order of events inside the driver is a precondition of the session
  methods, which follow what the driver guarantees:
  - no row arrives while the connection is paused or after `end`/`error`;
  - an acknowledgement needs a delivered row;
  - `end` comes once, and `error` at most once. `end` may follow `error`;
  - `end` does not arrive while the connection is paused;
  - neither `end` nor `error` arrives while the row handler runs;
  - no row arrives while the row handler for the previous row runs;
  - no `error` arrives after `end`.

  Asynchronous callbacks and exceptions thrown out of event handlers are
  not otherwise modelled.
- Execution.LimitOf: a truthy non-numeric `concurrency` (a string such as
  `"5"`, or an object) is treated as no limit. JavaScript would compare
  against it with coercion.
- Placeholders.Escape: the surplus inserts it leaves are returned. In the
  source they stay in the caller's array, which `shift()` mutates in place.
- Execution.OptionsOf: `callback.end` is read when the session starts.
  The source reads it when `end` fires (db.js:240), so a handler that
  adds or removes `end` later is not modelled.
- Execution.RowHandler: a truthy row handler that is not a function makes
  `callback.row(...)` throw a TypeError (db.js:219). The model states only
  which value is chosen, not that calling it fails.
- Placeholders.Format: a function `param` is always treated as having no
  usable `length`. In JavaScript its `length` is its arity, so one with
  no parameters leaves every `?` unchanged. An object `param` that
  carries its own `shift` method is treated like any other object.

# g-autoloader in Dafny

A verified model of the component autoloader of `index.js`. The function exported by that file
is given options holding a components directory, an `imports` object and a logger. It checks
that the directory exists and gives it a trailing `/`. It then returns either an error or an
object with two operations:

- `get(name)` loads the component file `path + name` with `require` and calls its factory with
  `imports`. The result is memoised per name, and failed loads are memoised too.
- `loadFiles(callback)` walks the directory tree and `get`s every `.js` file under its derived
  name, then calls `callback`.

The model has four modules:

- `JsStrings` (`js_strings.dfy`): the JavaScript string operations the code relies on:
  `lastIndexOf`, `indexOf`, `replace` of the first occurrence, and the `.js` suffix test.
- `Errors` (`errors.dfy`): the two error codes and the error objects that carry them.
- `Components` (`components.dfy`): the behaviour as values. It covers path normalisation, what
  one `fetch` returns and logs, what one `get` does to the cache, the names a walk yields, and
  the warm pass. The lemmas state what holds across several calls: failures are never retried,
  an `undefined` factory result is re-fetched, each name is loaded at most once, and the warm
  pass covers exactly the `.js` files.
- `Registry` (`registry.dfy`): the stateful object. `Autoloader` is a class with the closure's
  `path`, `cache` and `logger`. Its methods `Get`, `HandleFile` and `LoadFiles` change the
  cache in place. These three and `Fetch` append to the logger. Each one is proved to follow
  its function in `Components`. `SetPath` and `Create` model construction, which returns an autoloader or an
  error.

Abstract inputs stand in for the environment:

- `fs.statSync(...).isDirectory()` becomes a `StatResult`: the call threw, or it describes a
  file or a directory.
- `require(path + file)(imports)` becomes a `Loader`, a function from the resolved path to
  `Loaded(value)`, `ModuleNotFound` or `OtherFailure`.
- The directory walk becomes the finite sequence of `(root, fileName)` pairs its `file` events
  deliver.
- The logger becomes the sequence of lines it received. Each line keeps its severity and the
  name or path it is about.
- The completion callback becomes a counter of its calls, plus the cache and the log lines as
  they stood at its last call.

The model follows what the code does, including where that is not the obvious reading:

- The code tests `cache[name] === undefined` (index.js:102), not whether the key exists. A slot
  counts as filled when it is not `undefined`.
  A factory that returns `undefined` is fetched again on the next `get`.
- The trailing-slash test is `lastIndexOf('/') !== length - 1` (index.js:60). A path already
  ending in several slashes keeps them all. The empty path stays empty, because `lastIndexOf`
  gives -1, which equals `length - 1`. (`fs.statSync('')` throws, so this case does not arise
  in practice.)
- The component name removes the first occurrence of the base path from the walk root
  (`String.prototype.replace`, index.js:118). This is not necessarily a prefix.
  `RemoveFirst` models that, and also states that a root in which the base does not occur is
  kept whole. `ComponentName` states the prefix case.

The errors are the one place where the model does not return what the code returns. As
written, `new Error({code: ...})` (index.js:57, index.js:89) gives an error whose message is
"[object Object]" and which has no `code`. `Errors.ErrorAsWritten` models that, and
"## Findings" records it. The rest of the model returns the evidently intended error,
`Errors.ErrorWithCode`, which carries its code.

## Model

| member | source | states |
|---|---|---|
| `JsStrings.LastIndexOf` | index.js:60 | the result is -1 or an index holding the character, and no later index holds it |
| `JsStrings.IndexOfFrom` | index.js:118 | the result is the first position at or after `from` where the pattern occurs, or -1 when it occurs nowhere from there on |
| `JsStrings.RemoveFirst` | index.js:118 | when the pattern does not occur, the string is unchanged; otherwise the first occurrence of the pattern, wherever it is, is cut out and the rest kept in order; a pattern the string starts with is stripped as a prefix |
| `Errors.ErrorAsWritten` | index.js:57 | as written, the error has no `code` and its message is not the code's name |
| `Errors.ErrorWithCode` | index.js:57 | the error returned to callers carries its code |
| `Errors.ErrorWithCodeDistinguishes` | index.js:89 | the two error codes give different errors, with different messages |
| `Errors.AsWrittenLosesCode` | index.js:57 | as written, `new Error({code})` makes the two errors identical and drops the code |
| `Components.Normalize` | index.js:60-62 | a path ending in `/` is kept as it is; any other non-empty path gets exactly one `/` appended; the result of a non-empty path ends with `/`; the empty path stays empty |
| `Components.NormalizeIdempotent` | index.js:60-64 | normalising a stored path again changes nothing |
| `Components.NormalizeIgnoresTrailingSlash` | index.js:60-64 | a directory named with or without its trailing slash gets the same stored path |
| `Components.IsDefined` | index.js:102 | a slot is defined exactly when reading it does not give `undefined`; an absent key reads as `undefined` |
| `Components.FetchValue` | index.js:80-92 | a successful load returns the factory's value unchanged; not-found and any other failure both return the one COMPOSANT_NOT_FOUND error |
| `Components.FetchTrace` | index.js:78-90 | one debug line for the name comes first; after it, a warning on not-found, an error on any other failure, and nothing on success; every line is about that name |
| `Components.GetStep` | index.js:101-107 | the returned value is what the cache now holds for the name; the keys grow by exactly that name; every other slot is unchanged; a defined slot is returned with no fetch, no log and no change; an undefined one is fetched once and its result stored, failure included |
| `Components.FailureIsNotRetried` | index.js:82-106 | after a failed load, a second `get` returns the same COMPOSANT_NOT_FOUND error, logs nothing and leaves the cache alone |
| `Components.UndefinedIsRefetched` | index.js:81-106 | a factory returning `undefined` leaves the slot undefined, so the next `get` fetches again and logs a new debug line |
| `Components.GetAll` | index.js:101-107 | after a run of `get`s the cache keys are the old keys plus the requested names, and every slot defined before keeps its value (no eviction) |
| `Components.FetchTraceCountsOnce` | index.js:78 | one `fetch` counts as exactly one load of its name in the log |
| `Components.DefinedAfterGetAll` | index.js:101-106 | if the factory does not return `undefined`, a name is defined after a run of `get`s exactly when it was defined before or was requested |
| `Components.LoadedAtMostOnce` | index.js:101-106 | if the factory does not return `undefined`, a run of `get`s loads a name exactly once when it was not cached and is requested, and never otherwise |
| `Components.IsJsFile` | index.js:124 | a file name passes `/\.js$/` exactly when its last three characters are `.`, `j` and `s` |
| `Components.ComponentName` | index.js:118-125 | when the root starts with the base path: the root equal to the base gives the bare file name, and a longer root gives the remainder, `/` and the file name; the name always ends with the file name |
| `Components.WalkNames` | index.js:117-129 | the names a walk resolves are no more than its events, and each passes the `.js` test |
| `Components.WalkNamesExactly` | index.js:117-129 | a name is resolved by the walk exactly when some `.js` file of the walk derives it |
| `Components.Visit` | index.js:117-129 | a file not ending in `.js` leaves the cache and the log untouched; a `.js` file adds exactly its derived name to the cache keys |
| `Components.Warm` | index.js:114-132 | the warm pass removes no key, keeps every defined slot's value, and logs at most two lines per walked file |
| `Components.WarmIsGetAll` | index.js:114-132 | handling the walk's events one by one gives the same cache and log as a `get` of each name derived from a `.js` file, in walk order |
| `Components.WarmCoversJsFiles` | index.js:114-132 | a key is in the cache after the warm pass exactly when it was there before or a walked `.js` file derives it; slots defined before keep their values |
| `Components.ExampleTreeNames` | index.js:118-125 | under the base `root/`, `a.js` at the top is named `a.js`, `b.js` in `root/sub` is named `sub/b.js`, and `notes.txt` fails the `.js` test |
| `Components.WarmExampleTree` | index.js:114-132 | warming `root/` containing `a.js`, `sub/b.js` and `notes.txt` caches exactly `a.js` and `sub/b.js` |
| `Registry.SetPath` | index.js:44-66 | a directory gives its normalised path and logs nothing; a failed stat or a non-directory logs one fatal line and gives COMPOSANT_PATH_NOT_FOUND |
| `Registry.Create` | index.js:137-146 | an autoloader is produced exactly when the path is a directory; it is fresh, stores the normalised path (ending with `/` for a non-empty path) and starts with an empty cache, and nothing is logged; otherwise the path error comes back after one fatal line |
| `Registry.Autoloader.constructor` | index.js:21-36 | a new autoloader holds the given normalised path, loader and logger, and an empty cache |
| `Registry.Autoloader.Fetch` | index.js:75-93 | the value returned and the lines appended to the logger are those of `FetchValue` and `FetchTrace` for `path + file` |
| `Registry.Autoloader.Get` | index.js:101-107 | the new cache, the returned value and the appended log lines are those of `GetStep` on the old cache |
| `Registry.Autoloader.HandleFile` | index.js:117-129 | the new cache and the appended log lines are those of `Visit` for the event |
| `Registry.Autoloader.LoadFiles` | index.js:114-132 | the new cache and the appended log lines are those of `Warm` over the whole walk, and the callback has been called exactly once, after the loop: what it reads off the autoloader then is that final cache and log |

## Left out

- `fs.statSync` and `isDirectory` are a `StatResult` input. File-system semantics are not modelled.
- `require(path + file)(imports)` is a `Loader` function of the resolved path. Module
  resolution, Node's module cache, the `imports` object and what a factory does inside are
  opaque. The loader is deterministic for a given path, so a factory that returns `undefined`
  gives `undefined` again when it is re-fetched.
- Components.GetStep, Components.LoadedAtMostOnce, Registry.Autoloader.Get: these assume that a
  factory does not re-enter the autoloader or the logger. In the source, `imports` is passed by
  reference to every factory (index.js:36, index.js:81), so a caller can put the autoloader or
  the logger in it. A factory that calls `get` for another name or logs then adds slots and
  log lines in the middle of `fetch`. A factory that calls `get` on its own name recurses
  without bound, because its slot is still `undefined` while `fetch` runs (index.js:102-103).
- The `walk` library is modelled as a finite sequence of `(root, fileName)` events delivered in
  order, followed by the end event. The library's asynchrony and its traversal order are not
  modelled. How it spells roots is not modelled either, for example whether a top-level root
  carries the trailing `/`. A failure to start the walk is not modelled.
- Logger formatting, the message templates and the extra arguments (the resolved path, the
  original exception) are not modelled. A log line keeps only its severity and the name or
  path it is about.
- The cache is a clean `map`. Keys inherited from `Object.prototype`, such as `constructor`,
  would read as defined in the plain object `{}`. This is not modelled.
- The defaults of `options.imports` and `options.composants_path` (index.js:14-15), including
  their mutation of the caller's object. The path is taken as a string, with a missing path
  read as `""`.
- Concurrent or in-flight deduplication. The source is single-threaded and has no such
  mechanism.
- Components.WalkNames: its own contract bounds the names and says each is a `.js` name.
  Which names it yields is stated by `Components.WalkNamesExactly`.
- Components.FetchValue, Registry.Autoloader.Fetch, Registry.Autoloader.Get and
  Registry.Autoloader.LoadFiles: a module or factory that throws `null` or `undefined` is not
  modelled. In the source, reading `err.code` (index.js:83) then throws a `TypeError` out of
  `fetch` after the debug line. `get` stores nothing, and inside `loadFiles` the handler stops
  before `next()`, so the callback never runs. The model's `OtherFailure` stands for any thrown
  value other than `null` and `undefined` whose `code` is not `'MODULE_NOT_FOUND'`.
- Components.FetchValue: returns the corrected error, which carries the code
  COMPOSANT_NOT_FOUND. As written, index.js:89 returns an error with message "[object Object]"
  and no `code` (see "## Findings").
- Registry.SetPath: returns the corrected error, which carries the code
  COMPOSANT_PATH_NOT_FOUND. As written, index.js:57 returns an error with message
  "[object Object]" and no `code` (see "## Findings").
- Registry.Create: passes on the corrected path error of `Registry.SetPath`, for the same reason.
- JsStrings.IndexOfFrom: requires `from <= |s|`. JavaScript clamps a larger `from` to the
  length; the autoloader only searches from 0.

## Findings

| source | as written | input that shows it | evidently intended | confidence | as-written member | corrected member |
|---|---|---|---|---|---|---|
| index.js:57 | `new Error({code: 'COMPOSANT_PATH_NOT_FOUND'})` and `new Error({code: 'COMPOSANT_NOT_FOUND'})` (index.js:89) pass an object where `Error` takes a message. The message becomes "[object Object]" and no `code` property is set. | any failed construction compared with any failed `get`: both errors have message "[object Object]" and `code` undefined | the returned error carries its code, so a caller can tell a bad path from a missing component | high, not executed | `Errors.AsWrittenLosesCode` | `Errors.ErrorWithCodeDistinguishes` |

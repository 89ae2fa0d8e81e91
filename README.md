# Test orchestration core of a VS Code Mocha extension, in Dafny

This project models the two files at the centre of the extension, and proves properties of the model.

- **`runner.js`, the test runner** (`runner.dfy`, module `Runner`). This is a registry with three fields: the last discovered tests, the last run result, and the parameters of the last run. It offers five ways to pick tests: all, by pattern, one test, the failed ones, and the last set again. Each one becomes a `(testFiles, grep, logMessages)` triple, which goes to one primitive, `_runMocha`. That primitive stores the triple as given and sends it on with the file list deduplicated. The model is a class, `Runner.Runner`. What it sends is kept in a ghost log, `dispatched`. That log makes "what was sent" and "nothing was sent" part of each method's postcondition. `dedupeStrings` is a loop over a dictionary (`Runner.DedupeStrings`). It is proved equal to the specification function `Dedup`, and the properties of `Dedup` are proved as lemmas.
- **`mochashim.js`, the Mocha shim** (`mochashim.dfy`, module `MochaShim`). This file covers:
  - the environment merge for the discovery worker, and the subdirectory rule;
  - the warning stripper, as a hand-written scanner, with the outcome decision taken when the worker exits;
  - the text of the run command;
  - the per-pattern terminal sessions, as the class `MochaShim.SessionManager`. Its fields are the maps `terminals` and `terminalEventSet`, and a close notification is the explicit method `OnClose`.

`wrappers.dfy` holds the `Option` type, which stands for JavaScript's `null` and `undefined`.

Foreign code enters as parameters, not as definitions:
- `escape-regexp` becomes the function value `escape`, which the `Runner` constructor takes.
- `JSON.parse` becomes `parse: string -> Option<T>`, where `None` means the parse threw.
- `path.resolve` becomes `resolve`, and `path.sep` becomes `sep`.
- `process.env` and `config.env()` become maps, and `config.subdirectory()` becomes an optional string.
- The worker's exit code and diagnostic text are inputs of `OnWorkerExit` and `Runner.LoadTestFiles`.

Nothing is assumed about `escape`, so the properties proved about patterns are only those that follow from how the runner wraps its result.

Points where the code could be read otherwise, and what the model does:
- Sessions are reused while they are open, and evicted on close. A session is not recreated on every request.
- `lastRunParameters` stores the file list before deduplication.
- The command always globs every `.spec.js` file, whatever `testFiles` holds.
- The command always embeds `--grep`, even when there is no pattern. The model treats this one as a bug, corrected in `Command`; see "Findings".

JavaScript's coercion of `null` to `"null"`, both as an object key and inside a template literal, is `MochaShim.KeyText`.

## Model

| member | source | states |
|---|---|---|
| `MochaShim.EnvWithNodePath` | mochashim.js:10-14 | The keys are those of the process environment, plus `NODE_PATH`, plus the configured overrides. Every configured value wins. `NODE_PATH` is `root + sep + "node_modules"` unless configured. Every other process variable is kept. |
| `MochaShim.ApplySubdirectory` | mochashim.js:16-23 | The root is unchanged when the subdirectory is absent or empty. Otherwise it is `resolve(root, subdirectory)`. |
| `MochaShim.FindTestsInvocation` | mochashim.js:47-66 | The worker gets the resolved script path, plus a request whose root has the subdirectory applied and whose settings are passed through unchanged. Its environment always has `NODE_PATH`. Unless that variable is configured, it points at the effective root's `node_modules`. Configured variables win, and process variables are all present. In full, its environment is exactly `EnvWithNodePath` of the process environment, the effective root and the configured variables. |
| `MochaShim.WarningAt` | mochashim.js:26 | A match of `(node:\d+) DeprecationWarning:\s[^\n]+` at the start of the text has this shape: `(node:`, then a non-empty run of digits, then `) DeprecationWarning:`, then one `\s` character, then at least one character other than a newline, running to the end of the line. Conversely, whenever the text starts with `(node:`, a non-empty run of digits, `) DeprecationWarning:`, one `\s` character and a character that is not a newline, a match is found. |
| `MochaShim.StripWarnings` | mochashim.js:25-27 | Stripping never makes the text longer. |
| `MochaShim.StripWarningsIdentityIff` | mochashim.js:25-27 | The text comes back unchanged if and only if no warning starts anywhere in it. |
| `MochaShim.StripWarningsKeepsCleanPrefix` | mochashim.js:25-27 | Text before the first warning is copied verbatim, and scanning goes on from the same point. |
| `MochaShim.StripWarningsRemovesFirstWarning` | mochashim.js:25-27 | The leftmost warning is removed, and scanning resumes right after it. This is the left-to-right behaviour of a global replace. |
| `MochaShim.StripWarningsExample` | mochashim.js:25-27 | A deprecation warning printed ahead of the JSON document is removed up to its line end. The newline and the document remain. |
| `MochaShim.OnWorkerExit` | mochashim.js:85-108 | Discovery resolves exactly when the code is falsy and either the diagnostic text is empty or its stripped form parses. So a parse failure or a non-zero code rejects. An empty text with a falsy code resolves to the empty text without parsing. Otherwise it resolves to the parsed value. A rejection shows the raw diagnostic text. |
| `MochaShim.KeyText` | mochashim.js:32-34 | A pattern stands for itself as a dictionary key and as template text. A missing pattern (`null`) becomes the text `"null"`. |
| `MochaShim.CommandAsWritten` | mochashim.js:34 | The command text as written: the fixed `_mocha` invocation and glob, then the exact characters ` --grep "`, then the pattern unescaped, then a closing `"`. It takes nothing but the pattern. |
| `MochaShim.NoPatternGrepsForNull` | mochashim.js:34 | As written, a run without a pattern sends `--grep "null"`. This is the same command as filtering by the pattern `null`. |
| `MochaShim.Command` | mochashim.js:34 | The corrected command. It equals the written one whenever a pattern is present, and has no `--grep` when none is. |
| `MochaShim.GrepOfCommand` | mochashim.js:34 | The pattern can be read back out of the corrected command (a round trip). |
| `MochaShim.CommandInjective` | mochashim.js:34 | Distinct patterns, including "no pattern", give distinct corrected commands. |
| `MochaShim.SessionManager.constructor` | mochashim.js:29-30 | Both dictionaries start empty, with no handlers and nothing sent. |
| `MochaShim.SessionManager.RunTests` | mochashim.js:31-45 | Afterwards the key has a live terminal. A live terminal for the key is reused and none is created. Otherwise a fresh terminal is created, distinct from every live one. The corrected command `Command(grep)` goes to that terminal. With no pattern the source sends `--grep "null"` instead (see Findings). A close handler is registered only when the key's flag was unset, and the flag is then true. The object invariant holds: a key is flagged exactly while its terminal is live, and live terminals are distinct. The file list and messages play no part. |
| `MochaShim.SessionManager.OnClose` | mochashim.js:36-42 | Closing the live terminal named `n` sets `terminals[n]` to none and `terminalEventSet[n]` to false. Every other key, and closing a name with no live terminal, changes nothing. |
| `MochaShim.ReuseThenCloseScenario` | mochashim.js:31-44 | Two runs with one pattern share a terminal. After it is closed, the next run with that pattern gets a different terminal. |
| `Runner.DedupeStrings` | runner.js:65-71 | The dictionary loop returns `Dedup` of its input, with no duplicates and exactly the input's elements. |
| `Runner.DedupElements` | runner.js:65-71 | Deduplication keeps exactly the elements of the input. |
| `Runner.DedupNoDuplicates` | runner.js:65-71 | The deduplicated list has no repeated entry. |
| `Runner.DedupFirstOccurrenceOrder` | runner.js:65-71 | Entries come in strictly increasing order of their first positions in the input. |
| `Runner.DedupOfDistinct` | runner.js:65-71 | A list without duplicates is left as it is. |
| `Runner.DedupIdempotent` | runner.js:48 | Deduplicating twice is deduplicating once. This is why the failed-tests files are sent as computed. |
| `Runner.DedupExample` | runner.js:65-71 | `["a.js","b.js","a.js"]` becomes `["a.js","b.js"]`. |
| `Runner.Files` | runner.js:28 | The file list has one entry per test, in inventory order, each that test's file. |
| `Runner.ExactPattern` | runner.js:36 | The single-test pattern starts with `^` and ends with `$`, and the escaped name lies between them. |
| `Runner.ExactPatternInjective` | runner.js:36 | Two names give the same pattern only if they escape to the same fragment. |
| `Runner.Alternatives` | runner.js:49 | Each failed test gives one alternative, `(` + escaped name + `)`, in order. |
| `Runner.JoinEnds` | runner.js:49 | `Array.prototype.join` of no parts is the empty string. Otherwise the join starts with the first part and ends with the last. |
| `Runner.FailedPattern` | runner.js:49 | The failed-tests pattern starts with `^` and ends with `$`. It is exactly `^$` when no test failed. Otherwise its second character is `(` and its second to last is `)`. |
| `Runner.JoinSplit` | runner.js:49 | Joining a concatenation of two non-empty lists puts one separator between the two joins. |
| `Runner.FailedPatternHasAlternative` | runner.js:49 | As text, every failed test's bracketed, escaped name stands between the anchors as a whole alternative, bounded by `^` or `\|` on the left and by `\|` or `$` on the right. This is a fact about the string only. In a regular expression `\|` binds loosest, so `^` anchors only the first alternative and `$` only the last (see Left out). |
| `Runner.FailedPatternSingle` | runner.js:49 | With one failed test the pattern is `^(` + escaped name + `)$`. |
| `Runner.Dispatched` | runner.js:24 | The triple sent for a stored triple has no duplicate files and exactly the stored files. Its pattern and messages are the stored ones. |
| `Runner.FailedOf` | runner.js:40 | With no last result the failed list is empty. Otherwise it is that result's `failed` list. |
| `Runner.Runner.constructor` | runner.js:9-12 | The runner starts with no tests, no last result and no last parameters, and nothing has been sent. |
| `Runner.Runner.LoadTestFiles` | runner.js:14-20 | The outcome is the shim's exit decision. The tests are replaced only when discovery resolves. A rejection, for example from exit code 1, leaves them untouched. |
| `Runner.Runner.RunMocha` | runner.js:22-25 | The stored parameters are the triple exactly as given. The triple sent adds the deduplicated files, with the same pattern and messages. |
| `Runner.Runner.RunAll` | runner.js:27-29 | Stores every test's file in inventory order, with no pattern and the given messages. Sends those files deduplicated. |
| `Runner.Runner.RunWithGrep` | runner.js:31-33 | Sends `[file]` when a non-empty file is given, and otherwise every test's file (deduplicated). The pattern is always the given one, with no messages. |
| `Runner.Runner.RunTest` | runner.js:35-37 | Sends exactly `[test.file]` with the pattern `"^" + escape(test.fullName) + "$"`. |
| `Runner.Runner.RunFailed` | runner.js:39-52 | With no last result, or an empty failed list, it warns and sends and stores nothing. Otherwise it stores and sends the failed tests' deduplicated files with the alternation pattern. |
| `Runner.Runner.RunLastSet` | runner.js:54-63 | Before any run it warns and sends nothing. Afterwards it sends again exactly the triple sent last. The stored parameters are unchanged in both cases. |
| `Runner.InventoryScenario` | runner.js:27-37 | Two tests in `a.js` and `b.js` are discovered. Replaying before any run warns. Running all stores `["a.js","b.js"]` with no pattern. The pattern `A suite` keeps both files. The first test alone stores `["a.js"]` with its anchored, escaped name. |

## Left out

- `extension.js` is not part of this model. It holds command registration, prompts, quick-picks and error display, and its "current file only" filter of `runner.tests` before `runAll`.
- Spawning the worker, buffering its two streams, logging its standard output, and the shim's `error` handler (mochashim.js:51-84) are child-process I/O. The model starts from the exit code and the diagnostic text collected by the time `exit` fires. Node may emit `exit` before stderr is drained, and the model does not capture that race.
- Writing the diagnostic text to the "Mocha" output channel and the console is not modelled. The rejection carries the text that would be shown.
- Promises and asynchronous ordering are left out: every operation is one synchronous method.
- Nothing in these two files writes `lastRunResult` beyond its initial value. It is a field any caller may assign. Of a result, only `failed` is modelled; a missing `failed` list is the empty one.
- `escape-regexp`, `JSON.parse`, `path.resolve`, `path.sep` and the configuration module are foreign code, so they are parameters. No property of regular-expression matching is stated or proved, including that the escaped fragment matches only its literal.
- `JSON.stringify` of the worker request is not modelled. The request is kept as a structured value.
- The VS Code terminal API is replaced by numbered terminals. The model assumes a terminal's name is the key it was created under, including `"null"`. `show(true)` is folded into each logged `Sent` entry.
- `MochaShim.SessionManager.OnClose`: all registered close handlers do the same thing, so they are run as one. `listeners` counts registrations but does not tell them apart.
- `MochaShim.SessionManager.RunTests`: it logs the corrected command `Command(grep)`, not the text of mochashim.js:34. With no pattern, the source sends `--grep "null"` (modelled by `CommandAsWritten` and recorded under Findings). As in the source, it keys its maps by the pattern's string form. It does not model keys that name properties inherited from JavaScript's `Object.prototype`, such as `constructor`. In the source such a key already reads as an existing terminal.
- `Runner.DedupeStrings`: it returns first-occurrence order. JavaScript's `Object.keys` lists array-index-like keys (such as `"1"`) first, in numeric order, and drops the key `__proto__`. Absolute file paths are never such keys, so that case is not modelled.
- `Runner.Runner.LoadTestFiles`: an empty diagnostic text with a falsy exit code resolves to the empty string, and the source stores that string in `tests`. The model stores the empty inventory instead.
- `Runner.FailedPatternHasAlternative`: regular-expression matching is not modelled, so the model does not capture what the pattern of runner.js:49 selects. In `^(a)|(b)|(c)$` the `^` binds only to `(a)` and the `$` only to `(c)`. A failed test in the middle therefore reruns every test whose full name contains its name, not just the exact test.
- Tests and run results carry more fields in the source than `file`, `fullName` and `failed`. Those fields are passed through unread, so they are not modelled.

## Findings

| source | as written | input that shows it | evidently intended | confidence | as-written member | corrected member |
|---|---|---|---|---|---|---|
| mochashim.js:34 | The command always ends in `--grep "${grep}"`. `runAll` passes `grep = null` (runner.js:28), and the template turns it into the text `null`. | `runAll()` sends `... ./**/*.spec.js --grep "null"`, which is the same command as `runWithGrep("null")` (lemma `NoPatternGrepsForNull`). Mocha then runs only the tests whose names match `/null/`. | With no pattern, run every selected test, so leave out `--grep`. The corrected command carries exactly its pattern (lemmas `GrepOfCommand`, `CommandInjective`). `SessionManager.RunTests` sends the corrected command. | not executed; high | `MochaShim.CommandAsWritten` | `MochaShim.Command` |

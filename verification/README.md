# Game center test scripts, modelled in Dafny

The game-center repository ships two Node scripts that guard it:

- `tests/validate-structure.test.js`, the **structure validator**. It reads
  `games.json` and runs a flat list of `test(description, fn)` calls. Each
  call bumps global counters. It checks the nine fields of every game entry,
  the files in each game's directory, the README's AI mention, and the site's
  own files. It exits 1 when anything failed.
- `tests/validate-website.test.js`, the **smoke tester**. It starts a static
  file server over the repository and requests `/`, `/games.json` and every
  game's `index.html`. It counts passes and failures and exits 1 on any failure.

This project models the pure logic inside both scripts with JavaScript's own
semantics. Values are a `Value` datatype that includes `Undefined`. `&&` and
`||` return one of their operands. A test predicate either returns a value or
throws (`Completion`). The harness counts a failure only for a throw or for
the boolean `false` itself.

The modules:

| module | file | what it holds |
|---|---|---|
| `JsValue` | js_value.dfy | values, truthiness, `typeof`, the value-returning and/or operators, property access |
| `JsString` | js_string.dfy | `startsWith`, `includes`, `trim`, `toLowerCase` |
| `Harness` | harness.dfy | the `test`/`pass`/`fail` tally as a fold over events |
| `GameEntry` | game_entry.dfy | the nine field predicates, the entry label, the README predicate |
| `StructureRun` | structure_run.dfy | the whole structure validator over a given filesystem |
| `StaticServer` | static_server.dfy | the request handler's decision and the content-type table |
| `SmokeRun` | smoke_run.dfy | `runTests`: path normalising, counters, the double count |

Behaviour that follows from the code and differs from the documented intent:

- A missing, `null`, `""` or `0` value passes the checks of the seven
  `&&`-chain fields (`id`, `name`, `description`, `status`, `path`,
  `createdWith`, `model`). The chain returns that falsy value, and it is not
  `false`. `prLinks` and `prCount` are not `&&` chains: any `prLinks` that is
  not an array fails, and a `null` or `""` `prCount` fails.
- The README predicate fails when `model` is `false` and the README has no
  general marker. So "a falsy model can never fail" holds only for falsy
  values other than `false`.
- A truthy `model` that is not a string makes `toLowerCase` throw. The README
  test then fails even when the README says "ai".
- Test 3 ("games.json has games array") passes when the registry did not
  parse. In that case `gamesData` is `undefined` and the test returns it.
- A `null` entry stops the structure validator with an uncaught TypeError when
  it builds the label, so the exit status is 1. So does an `id` that cannot
  become text, such as an object with its own `toString` key. In the smoke
  tester such an entry throws again inside the loop's own `catch`; the outer
  `catch` counts it once and the game loop ends.
- A truthy `path` that is not a string makes `path.resolve` throw outside any
  test, which also stops the structure validator.

## Model

| member | source | states |
|---|---|---|
| Harness.Test | tests/validate-structure.test.js:31-53 | each `test` call raises total by one and raises exactly one of passed/failed by one; it fails exactly when the predicate threw or returned `false` itself |
| Harness.FalsyResultsPass | tests/validate-structure.test.js:44-49 | a predicate returning `undefined`, `null`, `""`, `0` or `NaN` is counted as a pass |
| Harness.ReplayCounts | tests/validate-structure.test.js:23-53 | over any sequence of `test` and direct `fail` calls, total is the number of tests, failed is failing tests plus direct fails, passed is the remaining tests |
| Harness.Balance | tests/validate-structure.test.js:36-53 | passed + failed = total + direct `fail` calls, hence passed + failed >= total |
| Harness.DirectFailOvercounts | tests/validate-structure.test.js:177-178 | a direct `fail` call leaves passed + failed strictly above total |
| Harness.FailuresAppend | tests/validate-structure.test.js:36-53 | failing tests and direct fails add up over consecutive stretches of a run |
| Harness.Record | tests/validate-structure.test.js:23-53 | updating the three counters in place, call by call, gives the same tally as the fold, with the same counts |
| JsString.Trim | tests/validate-structure.test.js:95 | `trim()` is the span of the string between its leading and its trailing JS whitespace: it is `""` exactly when every character is whitespace, and otherwise starts and ends with a non-whitespace character |
| JsString.IncludesIff | tests/validate-structure.test.js:171-175 | `includes` holds exactly when the needle occurs at some offset |
| JsString.IncludesSuffix | tests/validate-structure.test.js:216 | a string that contains a needle contains every suffix of it |
| JsString.Lower | tests/validate-structure.test.js:184 | `toLowerCase` keeps the length and lowers each ASCII capital |
| JsString.LowerKeepsIncludes | tests/validate-structure.test.js:184-190 | a text that contains a string still contains it once both are lowered |
| JsValue.And | tests/validate-structure.test.js:95-121 | `a && b` is `a` when `a` is falsy and `b` otherwise, so `undefined && x` stays `undefined` |
| JsValue.Or | tests/validate-structure.test.js:91 | the or-expression is its left operand when that is truthy and its right operand otherwise |
| JsValue.Prop | tests/validate-structure.test.js:94-134 | a property read gives an object's own value, and `undefined` otherwise |
| JsValue.Get | tests/validate-structure.test.js:91 | a property read throws exactly on `null` and `undefined` |
| GameEntry.NonBlankCheck | tests/validate-structure.test.js:94-100 | the `id`/`name` predicate returns `false` exactly for `false`, for a truthy non-string, or for a non-empty blank string; a falsy value is returned unchanged |
| GameEntry.StringCheck | tests/validate-structure.test.js:102-121 | the `description`/`status`/`path`/`createdWith`/`model` predicate returns `false` exactly for `false` or a truthy non-string; strings never fail |
| GameEntry.ArrayCheck | tests/validate-structure.test.js:123-125 | the `prLinks` predicate is `true` exactly for arrays, so an absent field fails |
| GameEntry.CountCheck | tests/validate-structure.test.js:127-134 | the `prCount` predicate passes exactly when the field is absent or is a number >= 0 |
| GameEntry.CountCheckRejects | tests/validate-structure.test.js:128-134 | `null`, strings, negative numbers and NaN all fail the `prCount` check |
| GameEntry.FieldCheck | tests/validate-structure.test.js:93-134 | which predicate each of the nine fields gets |
| GameEntry.FieldResults | tests/validate-structure.test.js:93-134 | an entry yields nine results, the k-th from the k-th field in the tested order |
| GameEntry.NonObjectEntry | tests/validate-structure.test.js:90-134 | an entry that is a non-null primitive or array fails only the `prLinks` check |
| GameEntry.Label | tests/validate-structure.test.js:91 | the label throws exactly for a `null` or `undefined` entry or an `id` that cannot become text; otherwise it shows the `id` when it is truthy and `'unknown'` when it is not |
| GameEntry.ReadmeCheck | tests/validate-structure.test.js:183-192 | the README predicate throws exactly for a truthy non-string model; it returns `false` exactly when no general marker is present and the model is `false` or a non-empty string the lowered README lacks |
| GameEntry.ReadmeFalsyModel | tests/validate-structure.test.js:186-192 | a falsy model other than `false` can never fail; with `false` the check fails exactly when no general marker is present |
| GameEntry.ReadmeFindsModel | tests/validate-structure.test.js:184-190 | a raw README that shows the model name in any ASCII casing passes the check |
| StructureRun.GameInfoEvents | tests/validate-structure.test.js:155-180 | an absent `game-info.yaml` gives no event; an unreadable one gives the is-file test and a direct fail; a readable one gives a passing is-file test and the three content tests (non-empty, `pull_requests:`, `stats:`) |
| StructureRun.GameTrace | tests/validate-structure.test.js:90-194 | an entry whose label throws crashes before any test; otherwise the nine field tests come first; a falsy `path` ends there; a truthy non-string `path` crashes there; a string `path` adds the three directory tests, the `game-info.yaml` events and the README test when the README can be read, and crashes exactly when the README exists but cannot be read |
| StructureRun.GamesTrace | tests/validate-structure.test.js:87-196 | the entries loop crashes exactly when some entry's own checks crash |
| StructureRun.GamesTraceFailures | tests/validate-structure.test.js:90-195 | when no entry crashes, the entries loop records exactly the sum of the failures each entry records on its own |
| StructureRun.EntryFailuresInclude | tests/validate-structure.test.js:90-195 | every entry's own failures are part of that sum |
| StructureRun.FailingEntryFailsRun | tests/validate-structure.test.js:90-250 | a listed entry with a failing test or a direct fail makes the run exit with status 1, whatever the other entries do |
| StructureRun.HasGamesArray | tests/validate-structure.test.js:82-84 | test 3 is truthy exactly for a truthy registry with a `games` array; it returns `false` only for `false` or a truthy registry without the array |
| StructureRun.RegistryEvents | tests/validate-structure.test.js:61-84 | test 1 is whether the registry exists; test 2 throws exactly when reading or parsing fails and is otherwise `true`; test 3 returns `gamesData && Array.isArray(gamesData.games)` |
| StructureRun.SiteEvents | tests/validate-structure.test.js:198-240 | the seven site tests in order: `index.html` exists; the three page tests throw when the page cannot be read, and otherwise check the HTML markers, a `games.json` reference and a grid marker; then README, AGENTS and the workflows directory |
| StructureRun.ScriptTrace | tests/validate-structure.test.js:61-240 | a run is the registry tests, then the entries' events exactly when the registry lists a games array, then the site tests unless an entry crashed, which is exactly when the run crashes |
| StructureRun.Run | tests/validate-structure.test.js:23-250 | the final counters satisfy passed + failed >= total; the run crashes exactly when the registry has a games array and some entry crashes |
| StructureRun.CleanRunExitsZero | tests/validate-structure.test.js:250 | exit status 0 exactly when the run did not crash and recorded no failing test and no direct fail |
| StructureRun.UnparsedRegistry | tests/validate-structure.test.js:69-87 | an unreadable or invalid registry fails test 2, passes test 3 with `undefined`, checks no entry, and then runs the site tests |
| StructureRun.UnlabelledEntryCrashes | tests/validate-structure.test.js:90-91 | an entry whose label cannot be built ends the run on an uncaught exception, with exit status 1 |
| StructureRun.UnlabelledEntries | tests/validate-structure.test.js:91 | a `null` entry and an `id` object with an own `toString` key, bare or inside an array, make the label throw; an own `valueOf` key alone does not |
| StructureRun.RegistryReferenceAlternativeRedundant | tests/validate-structure.test.js:214-217 | the `'./games.json'` alternative never changes the outcome of the "loads games.json" test |
| StructureRun.MissingDirectory | tests/validate-structure.test.js:136-153 | an entry with good fields and an absent directory gives twelve checks, and exactly the three directory checks fail |
| StructureRun.UnreadableGameInfo | tests/validate-structure.test.js:163-179 | an unreadable `game-info.yaml` gives a direct fail, which leaves passed + failed above total |
| StaticServer.RootIsIndex | tests/validate-website.test.js:37-43 | `/` gets the same response as `/index.html`, and every other pathname is joined unchanged |
| StaticServer.SiblingPassesGuard | tests/validate-website.test.js:45-50 | the traversal guard is a prefix test, so a sibling directory whose name extends the root's passes it |
| StaticServer.ContentType | tests/validate-website.test.js:68-80 | an extension in the table gets its entry, and every other extension, including `""`, gets `text/plain` |
| StaticServer.ContentTypeTable | tests/validate-website.test.js:69-78 | the table has exactly the eight listed extensions |
| StaticServer.Handle | tests/validate-website.test.js:33-83 | 403 iff the joined path fails the prefix guard; otherwise 404 iff it does not exist; otherwise 500 iff reading fails; otherwise 200 with the file body and the table's content type |
| StaticServer.ForbiddenIgnoresFilesystem | tests/validate-website.test.js:45-57 | a path the guard rejects gets 403, whatever the filesystem says |
| SmokeRun.NormalizeGamePath | tests/validate-website.test.js:169-174 | the result always starts with `/`: `./x` becomes `/x`, `/x` is kept, and `x` becomes `/x` |
| SmokeRun.NormalizeIdempotent | tests/validate-website.test.js:169-174 | normalising a normalised path changes nothing |
| SmokeRun.GameTarget | tests/validate-website.test.js:175 | the request target starts with `/`, ends with `/index.html`, and begins with the normalised path |
| SmokeRun.GameStep | tests/validate-website.test.js:166-188 | a game escapes the loop, counting nothing, exactly when it is `null`/`undefined` or its `id` cannot become text; any other game adds exactly one to one counter, and a pass exactly for a string `path` whose request answers 200 |
| SmokeRun.GamesLoop | tests/validate-website.test.js:166-189 | the loop never lowers a counter; it runs to the end exactly when no entry escapes, and then adds exactly one count per game |
| SmokeRun.GamesLoopCounts | tests/validate-website.test.js:166-189 | with no escaping entry the loop adds one pass per game whose page answers 200 and one failure per other game |
| SmokeRun.GamesLoopClean | tests/validate-website.test.js:166-189 | the loop runs to the end with no new failure exactly when every game's page answers 200 |
| SmokeRun.EscapeStopsLoop | tests/validate-website.test.js:185-189 | an escaping entry ends the loop with the counters of the games before it; later games are never requested |
| SmokeRun.RegistryPhase | tests/validate-website.test.js:146-201 | a rejected or non-200 registry adds one failure; an unparsable one adds two; a parsed value that is `null` or lacks a games array adds one; a listed registry adds at least its pass |
| SmokeRun.RegistryPhaseCounts | tests/validate-website.test.js:160-189 | a listed registry with no escaping entry adds its pass, then one pass per reachable game and one failure per other game |
| SmokeRun.RegistryPhaseEscape | tests/validate-website.test.js:166-200 | at the first escaping entry the counts stop where the games before it left them, and the outer catch adds one failure |
| SmokeRun.SingleNullEntry | tests/validate-website.test.js:160-200 | a registry `{"games":[null]}` adds one pass and one failure |
| SmokeRun.RegistryPhaseClean | tests/validate-website.test.js:146-201 | test 2 and the games add no failure exactly when the registry answers 200, parses, lists a games array, and every game's page answers 200 |
| SmokeRun.InvalidJsonCountsTwice | tests/validate-website.test.js:150-200 | invalid JSON adds exactly two failures and no pass, and no game is requested |
| SmokeRun.RunTests | tests/validate-website.test.js:115-217 | a run counts at least three tests, and a failing index or grid test is a failure |
| SmokeRun.SmokeExitZero | tests/validate-website.test.js:229-234 | exit status 0 exactly when the index and grid tests pass, the registry answers 200, parses and lists a games array, and every listed game's page answers 200 |
| SmokeRun.RunCountsEveryGame | tests/validate-website.test.js:115-217 | with a listed registry and no escaping entry, passes plus failures are three plus the number of games, and the passes are test 2, the reachable games and the passing index and grid tests |
| SmokeRun.ServerReply | tests/validate-website.test.js:89-107 | a request to the model server always gets a reply, carrying the handler's status and body |
| SmokeRun.IndexTestAgainstServer | tests/validate-website.test.js:130-144 | against the model server, test 1 passes exactly when the joined `/index.html` passes the guard, exists, reads, and contains "Game Center" |
| SmokeRun.GameAgainstServer | tests/validate-website.test.js:166-184 | against the model server, a game with a string `path` passes exactly when its `id` can become text and its joined target passes the guard, exists and reads |

## Left out

- Filesystem access (`existsSync`, `statSync`, `readFileSync`, `readFile`) is not modelled. Each path's state is an input: missing, a directory, or a file whose read may fail. Other kinds of node, such as sockets, are not modelled.
- `path.join`, `path.resolve`, `path.extname` and `new URL` are not modelled. The server takes join and extname as functions of the filesystem input. The structure validator keys a game's directory facts by its `path` string. `ServerReply` treats `new URL` as leaving the target unchanged.
- `JSON.parse` is an input function from text to an optional `Value`.
- The HTTP server and client, `listen`/`close`, the 500 ms delay, and Promise sequencing are I/O and event-loop plumbing. Replies are an input `serve` function, called with the same result for both requests to `/`.
- The outer `catch` of `runTests` (lines 226-228) and the `.catch` on the call (lines 239-242) only see errors from the server plumbing, which is left out.
- ANSI colours, console output and message text are not modelled. The label is modelled as the value it shows (`GameEntry.Label`), not as formatted text.
- Numbers are abstract: NaN, a finite real or an infinity. Fractional and signed-zero subtleties do not arise in the checks.
- JsString.Lower: maps only ASCII capitals, because full Unicode case mapping is a library table outside the model.
- Prototype properties of objects are not modelled: a property read sees only an object's own keys. None of the keys the scripts read (`games`, `id`, `name`, `path` and the other fields) is a property of `Object.prototype` or `Array.prototype`.
- `.github/scripts/update-game-pr-tracking.js`, the PR-tracking updater, is not part of this model.

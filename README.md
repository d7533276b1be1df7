# gae-env-secrets in Dafny

A model of `getEnvSecrets` from the `gae-env-secrets` package (`index.js`).
At application start-up, when the process runs on Google App Engine (the
variable `GAE_SERVICE` or `GAE_RUNTIME` is set to a non-empty value), the
routine walks a snapshot of `process.env` in order. For the variable named
exactly `SECRET_KEY` it asks Secret Manager for the secret that the
variable's value names, and overwrites the variable with that secret. A
failed fetch is logged and the routine carries on.

The model has three modules:

- `Wrappers` (`wrappers.dfy`): `Option` and `Result`.
- `Environment` (`environment.dfy`): the environment as an ordered sequence
  of `(name, value)` entries, with `Lookup` for `process.env[name]` and
  `Assign` for `process.env[name] = value`. The class `ProcessEnv` holds
  the live environment, updated in place.
- `EnvSecrets` (`env_secrets.dfy`): the log events, the `Console` and
  `SecretManager` objects, the routine itself (`GetEnvSecrets`, split into
  the guard, the hosted path `SubstituteSecrets` and the loop body
  `HandleEntry`), the functions that specify them, and the lemmas.

Secret Manager is an abstract, deterministic oracle
`fetch: string -> Result<string, string>`. It maps a secret reference to the
secret's text, or to an error message. `SecretManager` also records every
reference it is asked for, so the model can say which fetches happen and in
what order. `console.log` and `console.error` are one sequence of events,
`Info(line)` and `Error(key, message)`, in call order.

The methods are proved against the functions `EnvAfter`, `LogAfter` and
`RequestsAfter`. These give the environment, the log and the fetch requests
after the loop has handled the first `n` snapshot entries. `Run` puts the
guard in front of them. The lemmas state what `index.js` promises about
`Run`. The predicates `Truthy` and `IsHosted` model the hosting guard at
index.js:10 (a marker counts when it is set and not the empty string), and
`IsSelected` models the selection test `key === 'SECRET_KEY'` at
index.js:16. A real process environment never holds the same name twice
(`DistinctKeys`), so at most one entry is selected. `RunWithSecretKey` and
`RunWithoutSecretKey` describe the whole outcome in the two possible cases.

## Where the code and its descriptions disagree

- Descriptions of this helper mention a configurable key suffix (default
  `_SECRET`), a strict mode that aborts on the first failed fetch, and
  detection of secret references by the shape of their value. `index.js`
  has none of these. It selects exactly the name `SECRET_KEY` and swallows
  every fetch error. The model follows the code.
- The repository's test (`test/gae-env-secrets.test.js:17-24`) sets
  `TEST_SECRET` and expects it to be replaced by the mocked secret. Under
  the code as written, `TEST_SECRET` is not selected and keeps its value.
  `TestScenarioLeavesTestSecret` proves this for an environment made of
  the three variables the test sets, with nothing inherited; that
  `TEST_SECRET` keeps its value in any environment already follows from
  `RunUnselectedUnchanged`. The model records the disagreement and does not change the
  selection rule.
- Running the routine again is not a no-op. After a successful substitution
  the variable is still named `SECRET_KEY`, so a second call sends the
  secret itself to the store (`RerunFetchesSubstitutedValue`).

## Model

| member | source | states |
|---|---|---|
| `Environment.LookupFinds` | index.js:10 | reading `process.env[name]` yields a value exactly when the name is present, and that value belongs to an entry with that name |
| `Environment.LookupAt` | index.js:10 | with distinct names, reading a present name yields the value of the entry that holds it |
| `Environment.AssignKeys` | index.js:20 | assigning to a present name keeps the names and their order; assigning to a new name appends it; entries with other names do not change |
| `Environment.AssignLookup` | index.js:20 | after `process.env[key] = value`, reading `key` gives `value` and reading any other name gives what it gave before |
| `Environment.AssignAt` | index.js:20 | with distinct names, the assignment rewrites exactly the entry holding the name, in its position |
| `Environment.ProcessEnv.Set` | index.js:20 | the live environment becomes the keyed assignment of the old one |
| `EnvSecrets.Console.Log` | index.js:14 | `console.log` appends exactly one info event with the given line |
| `EnvSecrets.Console.LogError` | index.js:23 | `console.error` appends exactly one error event naming the key and the message |
| `EnvSecrets.SecretManager.GetSecret` | index.js:4-7 | returns the store's answer for the reference and records that one request |
| `EnvSecrets.HandleEntry` | index.js:16-25 | for a selected entry: one retrieval line, one fetch with the entry's value, then the variable overwritten on success or one error event on failure; an unselected entry changes nothing |
| `EnvSecrets.SubstituteSecrets` | index.js:14-27 | the hosted path logs the start line, runs the loop over the snapshot taken before any change, then logs the end line last, whatever the fetch outcomes (every fetch error in the model carries a message string; see Left out for nullish rejections) |
| `EnvSecrets.GetEnvSecrets` | index.js:9-28 | the environment, log and fetch requests after the call are those of `Run` on the environment before it; the model always completes normally, since its fetch errors always carry a message |
| `EnvSecrets.NotHostedIsNoOp` | index.js:10-13 | when neither marker is present with a non-empty value, the environment is unchanged, nothing is fetched, and exactly one info line is logged |
| `EnvSecrets.HostedIff` | index.js:10 | the guard passes exactly when at least one of `GAE_SERVICE` and `GAE_RUNTIME` is present with a non-empty value |
| `EnvSecrets.EnvAfterKeys` | index.js:15-20 | the loop never adds, removes or reorders variables |
| `EnvSecrets.EnvAfterUnselected` | index.js:15-16 | the loop never changes an entry whose name is not `SECRET_KEY` |
| `EnvSecrets.EnvAfterResolves` | index.js:15-24 | with distinct names, after `n` entries the first `n` hold their resolved value and the rest hold their snapshot value |
| `EnvSecrets.UnselectedRange` | index.js:15-16 | unselected entries cause no change, no log line and no fetch |
| `EnvSecrets.EnvOnlyAt` | index.js:15-20 | when one entry is the only selected one, the environment changes only as that entry's fetch says, once the loop has passed it |
| `EnvSecrets.LogOnlyAt` | index.js:16-24 | when one entry is the only selected one, it alone produces log events |
| `EnvSecrets.RequestsOnlyAt` | index.js:16-19 | when one entry is the only selected one, it alone is fetched, with its snapshot value |
| `EnvSecrets.RunKeysUnchanged` | index.js:15-20 | the routine never inserts or deletes a variable, and keeps their order |
| `EnvSecrets.RunUnselectedUnchanged` | index.js:15-16 | every variable other than `SECRET_KEY` keeps its original value |
| `EnvSecrets.RunResolvesEachEntry` | index.js:15-24 | on the hosted path each entry holds its fetched secret when it is selected and the fetch succeeds, and its original value otherwise |
| `EnvSecrets.RunWithoutSecretKey` | index.js:14-27 | hosted, without `SECRET_KEY`: nothing is fetched or changed, and the log is exactly the start and end lines |
| `EnvSecrets.RunWithSecretKey` | index.js:14-27 | hosted, with `SECRET_KEY`: fetch is called exactly once, with its original value; on success it holds the secret and the log is start, retrieval, end; on failure it keeps its value and exactly one error event naming the key and message sits between retrieval and end |
| `EnvSecrets.RerunFetchesSubstitutedValue` | index.js:15-20 | after a successful substitution a second run fetches again, with the substituted secret as reference |
| `EnvSecrets.TestScenarioLeavesTestSecret` | test/gae-env-secrets.test.js:17-24 | in an environment of exactly the three variables the test sets (nothing inherited) with the test's mock, `TEST_SECRET` keeps `secret-reference`, nothing is fetched and only the start and end lines are logged |

## Left out

- The Secret Manager client and `accessSecretVersion` (index.js:1-7), including decoding the payload with `toString()`: foreign library calls, replaced by the abstract `fetch` oracle held by `SecretManager`.
- The `await` at index.js:19: the routine is strictly sequential, so it is a plain loop.
- Console output itself: `console.log` and `console.error` are appended events. The two real channels are separate streams; the model keeps one sequence in call order.
- Ambient access to `process.env`: the environment is an explicit `ProcessEnv` object passed in.
- `error.message` when the rejection reason is not an `Error`: a non-nullish value without a `message` property prints `undefined` (an object with a `message` property prints that property); `null` or `undefined` makes the `catch` block at index.js:22-24 throw a TypeError, so the routine rejects without the error line and without the done line of index.js:27. The model's error arm always carries a message string, so the model always completes.
- The order of `Object.entries` (in JavaScript, integer-like names come first): the model takes the snapshot's order as given by the sequence.
- A fetch that never settles, or one whose answer changes between calls: `fetch` is a total, deterministic function.
- The Jest test harness and its mocks: only the test's scenario is modelled, by `TestScenarioLeavesTestSecret`.

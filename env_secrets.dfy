/**
 * getEnvSecrets: when the process runs on App Engine, replace the value of
 * the variable `SECRET_KEY` by the secret it names, fetched from Secret
 * Manager; a failed fetch is logged and otherwise ignored.
 */
module EnvSecrets {
  import opened Wrappers
  import opened Environment

  const ServiceMarker := "GAE_SERVICE"
  const RuntimeMarker := "GAE_RUNTIME"
  /** The one variable name whose value is treated as a secret reference. */
  const SecretKeyName := "SECRET_KEY"

  const NotHostedMessage := "Not running in GAE. Nothing to do for getEnvSecrets."
  const StartMessage := "Starting getEnvSecrets"
  const DoneMessage := "getEnvSecrets done"

  function RetrievingMessage(key: string): string
  {
    "Retrieving secret for key " + key
  }

  /** JavaScript truthiness of `process.env[name]`: set and not the empty string. */
  predicate Truthy(v: Option<string>)
  {
    v.Some? && v.value != ""
  }

  predicate IsMarker(key: string)
  {
    key == ServiceMarker || key == RuntimeMarker
  }

  /** The hosting guard: at least one of the two App Engine markers is truthy. */
  predicate IsHosted(env: Env)
  {
    Truthy(Lookup(env, ServiceMarker)) || Truthy(Lookup(env, RuntimeMarker))
  }

  /** The selection test: the name is exactly `SECRET_KEY`. */
  predicate IsSelected(key: string)
  {
    key == SecretKeyName
  }

  /**
   * One logged line: `console.log(line)`, or the `console.error` line
   * "Could not retrieve secret for key <key>: <message>", kept as its key
   * and message.
   */
  datatype LogEvent = Info(line: string) | Error(key: string, message: string)

  /** Both console channels, as one sequence of events in the order they are emitted. */
  class Console {
    var events: seq<LogEvent>

    constructor ()
      ensures events == []
    {
      events := [];
    }

    method Log(line: string)
      modifies this
      ensures events == old(events) + [Info(line)]
    {
      events := events + [Info(line)];
    }

    method LogError(key: string, message: string)
      modifies this
      ensures events == old(events) + [Error(key, message)]
    {
      events := events + [Error(key, message)];
    }
  }

  /**
   * The secret store behind getSecret: a deterministic oracle from a secret
   * reference to the secret's text or an error message, and the references
   * it has been asked for so far.
   */
  class SecretManager {
    const fetch: string -> Result<string, string>
    var requests: seq<string>

    constructor (fetch: string -> Result<string, string>)
      ensures this.fetch == fetch && requests == []
    {
      this.fetch := fetch;
      requests := [];
    }

    /** getSecret(name): ask the store for the secret `name` refers to. */
    method GetSecret(name: string) returns (r: Result<string, string>)
      modifies this
      ensures r == fetch(name)
      ensures requests == old(requests) + [name]
    {
      r := fetch(name);
      requests := requests + [name];
    }
  }

  /* ---------- The loop over the snapshot, one entry at a time ---------- */

  /** The environment `cur` after the loop has handled one entry of the snapshot. */
  function EntryEnv(cur: Env, entry: Entry, fetch: string -> Result<string, string>): Env
  {
    var (key, value) := entry;
    if IsSelected(key) && fetch(value).Ok? then Assign(cur, key, fetch(value).value) else cur
  }

  /** The references the loop sends to the store while handling one entry. */
  function EntryRequests(entry: Entry): seq<string>
  {
    if IsSelected(entry.0) then [entry.1] else []
  }

  /** The environment after the loop has handled the first `n` entries of `snap`. */
  function EnvAfter(snap: Env, n: nat, fetch: string -> Result<string, string>): Env
    requires n <= |snap|
  {
    if n == 0 then snap else EntryEnv(EnvAfter(snap, n - 1, fetch), snap[n - 1], fetch)
  }

  /** The events the loop emits while handling one entry. */
  function EntryEvents(entry: Entry, fetch: string -> Result<string, string>): seq<LogEvent>
  {
    var (key, value) := entry;
    if !IsSelected(key) then []
    else if fetch(value).Err? then [Info(RetrievingMessage(key)), Error(key, fetch(value).error)]
    else [Info(RetrievingMessage(key))]
  }

  /** The events the loop emits while handling the first `n` entries of `snap`. */
  function LogAfter(snap: Env, n: nat, fetch: string -> Result<string, string>): seq<LogEvent>
    requires n <= |snap|
  {
    if n == 0 then [] else LogAfter(snap, n - 1, fetch) + EntryEvents(snap[n - 1], fetch)
  }

  /** The references the loop sends to the store while handling the first `n` entries of `snap`. */
  function RequestsAfter(snap: Env, n: nat): seq<string>
    requires n <= |snap|
  {
    if n == 0 then [] else RequestsAfter(snap, n - 1) + EntryRequests(snap[n - 1])
  }

  /** Everything one call of getEnvSecrets produces: the new environment, the log and the store requests. */
  datatype Outcome = Outcome(env: Env, log: seq<LogEvent>, requests: seq<string>)

  function Run(env: Env, fetch: string -> Result<string, string>): Outcome
  {
    if !IsHosted(env) then Outcome(env, [Info(NotHostedMessage)], [])
    else
      Outcome(EnvAfter(env, |env|, fetch),
              [Info(StartMessage)] + LogAfter(env, |env|, fetch) + [Info(DoneMessage)],
              RequestsAfter(env, |env|))
  }

  /**
   * The body of the loop for one snapshot entry: when its name is selected,
   * log, fetch with the entry's value, and then either overwrite the
   * variable with the secret or log the error.
   */
  method HandleEntry(env: ProcessEnv, console: Console, store: SecretManager, entry: Entry)
    modifies env, console, store
    ensures env.entries == EntryEnv(old(env.entries), entry, store.fetch)
    ensures console.events == old(console.events) + EntryEvents(entry, store.fetch)
    ensures store.requests == old(store.requests) + EntryRequests(entry)
  {
    var (key, value) := entry;
    if key == SecretKeyName {
      console.Log(RetrievingMessage(key));
      var secret := store.GetSecret(value);
      match secret {
        case Ok(s) => env.Set(key, s);
        case Err(message) => console.LogError(key, message);
      }
    }
  }

  /**
   * The hosted path of getEnvSecrets. The loop walks a snapshot of the
   * entries taken before any change; a fetch error is logged and the loop
   * goes on; since every fetch error carries a message, the method
   * always completes normally.
   */
  method SubstituteSecrets(env: ProcessEnv, console: Console, store: SecretManager)
    modifies env, console, store
    ensures env.entries == EnvAfter(old(env.entries), |old(env.entries)|, store.fetch)
    ensures console.events == old(console.events) + [Info(StartMessage)]
                              + LogAfter(old(env.entries), |old(env.entries)|, store.fetch) + [Info(DoneMessage)]
    ensures store.requests == old(store.requests) + RequestsAfter(old(env.entries), |old(env.entries)|)
  {
    console.Log(StartMessage);
    var snapshot := env.entries;
    var i := 0;
    while i < |snapshot|
      invariant 0 <= i <= |snapshot|
      invariant env.entries == EnvAfter(snapshot, i, store.fetch)
      invariant console.events == old(console.events) + [Info(StartMessage)] + LogAfter(snapshot, i, store.fetch)
      invariant store.requests == old(store.requests) + RequestsAfter(snapshot, i)
    {
      HandleEntry(env, console, store, snapshot[i]);
      i := i + 1;
    }
    console.Log(DoneMessage);
  }

  /** getEnvSecrets: the hosting guard, then the hosted path. */
  method GetEnvSecrets(env: ProcessEnv, console: Console, store: SecretManager)
    modifies env, console, store
    ensures env.entries == Run(old(env.entries), store.fetch).env
    ensures console.events == old(console.events) + Run(old(env.entries), store.fetch).log
    ensures store.requests == old(store.requests) + Run(old(env.entries), store.fetch).requests
  {
    if !Truthy(env.Get(ServiceMarker)) && !Truthy(env.Get(RuntimeMarker)) {
      console.Log(NotHostedMessage);
      return;
    }
    SubstituteSecrets(env, console, store);
  }

  /* ---------- Properties of the model ---------- */

  /** The value an entry ends up with: the fetched secret when it is selected and the fetch succeeds. */
  function Resolve(entry: Entry, fetch: string -> Result<string, string>): Entry
  {
    if IsSelected(entry.0) && fetch(entry.1).Ok? then (entry.0, fetch(entry.1).value) else entry
  }

  /** The loop only ever assigns to names already in the snapshot: no variable is added or removed, and the order stays. */
  lemma {:induction false} EnvAfterKeys(snap: Env, n: nat, fetch: string -> Result<string, string>)
    requires n <= |snap|
    ensures Keys(EnvAfter(snap, n, fetch)) == Keys(snap)
  {
    if n > 0 {
      EnvAfterKeys(snap, n - 1, fetch);
      var (key, value) := snap[n - 1];
      assert Keys(snap)[n - 1] == key;
      if IsSelected(key) && fetch(value).Ok? {
        AssignKeys(EnvAfter(snap, n - 1, fetch), key, fetch(value).value);
      }
    }
  }

  /** An entry whose name is not `SECRET_KEY` is never changed by the loop. */
  lemma {:induction false} EnvAfterUnselected(snap: Env, n: nat, fetch: string -> Result<string, string>, i: nat)
    requires n <= |snap| && i < |snap|
    requires !IsSelected(snap[i].0)
    ensures |EnvAfter(snap, n, fetch)| == |snap| && EnvAfter(snap, n, fetch)[i] == snap[i]
  {
    EnvAfterKeys(snap, n, fetch);
    assert |Keys(EnvAfter(snap, n, fetch))| == |Keys(snap)|;
    if n > 0 {
      EnvAfterUnselected(snap, n - 1, fetch, i);
      var (key, value) := snap[n - 1];
      if IsSelected(key) && fetch(value).Ok? {
        AssignKeys(EnvAfter(snap, n - 1, fetch), key, fetch(value).value);
      }
    }
  }

  /** The snapshot with its first `n` entries resolved. */
  function ResolvedPrefix(snap: Env, n: nat, fetch: string -> Result<string, string>): Env
  {
    seq(|snap|, i requires 0 <= i < |snap| => if i < n then Resolve(snap[i], fetch) else snap[i])
  }

  /** With distinct names, after `n` entries the first `n` are resolved and the rest are as in the snapshot. */
  lemma {:induction false} EnvAfterResolves(snap: Env, n: nat, fetch: string -> Result<string, string>)
    requires DistinctKeys(snap)
    requires n <= |snap|
    ensures EnvAfter(snap, n, fetch) == ResolvedPrefix(snap, n, fetch)
  {
    if n > 0 {
      EnvAfterResolves(snap, n - 1, fetch);
      var prev := EnvAfter(snap, n - 1, fetch);
      EnvAfterKeys(snap, n - 1, fetch);
      SameKeysDistinct(snap, prev);
      var entry := snap[n - 1];
      assert prev[n - 1] == entry;
      if IsSelected(entry.0) && fetch(entry.1).Ok? {
        AssignAt(prev, n - 1, fetch(entry.1).value);
        assert prev[n - 1 := Resolve(entry, fetch)] == ResolvedPrefix(snap, n, fetch);
      } else {
        assert prev == ResolvedPrefix(snap, n, fetch);
      }
    }
  }

  /** Entries that are not selected contribute nothing: no change, no log line, no fetch. */
  lemma {:induction false} UnselectedRange(snap: Env, m: nat, n: nat, fetch: string -> Result<string, string>)
    requires m <= n <= |snap|
    requires forall j :: m <= j < n ==> !IsSelected(snap[j].0)
    ensures EnvAfter(snap, n, fetch) == EnvAfter(snap, m, fetch)
    ensures LogAfter(snap, n, fetch) == LogAfter(snap, m, fetch)
    ensures RequestsAfter(snap, n) == RequestsAfter(snap, m)
  {
    if n > m {
      UnselectedRange(snap, m, n - 1, fetch);
    }
  }

  /** When neither marker is set to a non-empty value, nothing is fetched, nothing changes and one line is logged. */
  lemma NotHostedIsNoOp(env: Env, fetch: string -> Result<string, string>)
    requires forall i :: 0 <= i < |env| && IsMarker(env[i].0) ==> env[i].1 == ""
    ensures Run(env, fetch) == Outcome(env, [Info(NotHostedMessage)], [])
  {
    LookupFinds(env, ServiceMarker);
    LookupFinds(env, RuntimeMarker);
  }

  /** The guard passes exactly when at least one of the two markers is present with a non-empty value. */
  lemma HostedIff(env: Env)
    requires DistinctKeys(env)
    ensures IsHosted(env) <==> exists i :: 0 <= i < |env| && IsMarker(env[i].0) && env[i].1 != ""
  {
    LookupFinds(env, ServiceMarker);
    LookupFinds(env, RuntimeMarker);
    if i :| 0 <= i < |env| && IsMarker(env[i].0) && env[i].1 != "" {
      LookupAt(env, i);
    }
  }

  /** getEnvSecrets never adds, removes or reorders variables. */
  lemma RunKeysUnchanged(env: Env, fetch: string -> Result<string, string>)
    ensures Keys(Run(env, fetch).env) == Keys(env)
  {
    EnvAfterKeys(env, |env|, fetch);
  }

  /** Every variable other than `SECRET_KEY` keeps its value. */
  lemma RunUnselectedUnchanged(env: Env, fetch: string -> Result<string, string>, i: nat)
    requires i < |env|
    requires !IsSelected(env[i].0)
    ensures |Run(env, fetch).env| == |env| && Run(env, fetch).env[i] == env[i]
  {
    EnvAfterUnselected(env, |env|, fetch, i);
  }

  /** On the hosted path each entry ends up resolved: a selected entry holds its secret when the fetch succeeds, and its old value otherwise. */
  lemma RunResolvesEachEntry(env: Env, fetch: string -> Result<string, string>)
    requires IsHosted(env)
    requires DistinctKeys(env)
    ensures |Run(env, fetch).env| == |env|
    ensures forall i :: 0 <= i < |env| ==> Run(env, fetch).env[i] == Resolve(env[i], fetch)
  {
    EnvAfterResolves(env, |env|, fetch);
  }

  /** Hosted, without a `SECRET_KEY` variable: nothing is fetched or changed, and only the start and end lines are logged. */
  lemma RunWithoutSecretKey(env: Env, fetch: string -> Result<string, string>)
    requires IsHosted(env)
    requires SecretKeyName !in Keys(env)
    ensures Run(env, fetch) == Outcome(env, [Info(StartMessage), Info(DoneMessage)], [])
  {
    forall j | 0 <= j < |env| ensures !IsSelected(env[j].0) {
      assert Keys(env)[j] == env[j].0;
    }
    UnselectedRange(env, 0, |env|, fetch);
  }

  /** With distinct names, the entry named `SECRET_KEY` is the only one selected. */
  lemma OnlyOneSelected(env: Env, i: nat)
    requires DistinctKeys(env)
    requires i < |env| && env[i].0 == SecretKeyName
    ensures forall j :: 0 <= j < |env| && j != i ==> !IsSelected(env[j].0)
  {
  }

  /** When the entry at `i` is the only selected one, the environment changes exactly as that entry says once the loop has passed it. */
  lemma {:induction false} EnvOnlyAt(env: Env, fetch: string -> Result<string, string>, i: nat, n: nat)
    requires i < |env| && n <= |env|
    requires forall j :: 0 <= j < |env| && j != i ==> !IsSelected(env[j].0)
    ensures EnvAfter(env, n, fetch) == if n <= i then env else EntryEnv(env, env[i], fetch)
  {
    if n > 0 {
      EnvOnlyAt(env, fetch, i, n - 1);
      if n - 1 != i {
        assert !IsSelected(env[n - 1].0);
        assert EntryEnv(EnvAfter(env, n - 1, fetch), env[n - 1], fetch) == EnvAfter(env, n - 1, fetch);
      }
    }
  }

  /** When the entry at `i` is the only selected one, it is the only one that logs. */
  lemma {:induction false} LogOnlyAt(env: Env, fetch: string -> Result<string, string>, i: nat, n: nat)
    requires i < |env| && n <= |env|
    requires forall j :: 0 <= j < |env| && j != i ==> !IsSelected(env[j].0)
    ensures LogAfter(env, n, fetch) == if n <= i then [] else EntryEvents(env[i], fetch)
  {
    if n > 0 {
      LogOnlyAt(env, fetch, i, n - 1);
      if n - 1 != i {
        assert !IsSelected(env[n - 1].0);
        assert EntryEvents(env[n - 1], fetch) == [];
      }
    }
  }

  /** When the entry at `i` is the only selected one, it is the only one that is fetched. */
  lemma {:induction false} RequestsOnlyAt(env: Env, i: nat, n: nat)
    requires i < |env| && n <= |env|
    requires forall j :: 0 <= j < |env| && j != i ==> !IsSelected(env[j].0)
    ensures RequestsAfter(env, n) == if n <= i then [] else EntryRequests(env[i])
  {
    if n > 0 {
      RequestsOnlyAt(env, i, n - 1);
      if n - 1 != i {
        assert !IsSelected(env[n - 1].0);
        assert EntryRequests(env[n - 1]) == [];
      }
    }
  }

  /**
   * Hosted, with the variable `SECRET_KEY` at position `i`: its original
   * value is sent to the store exactly once; on success the variable holds
   * the secret, on failure it keeps its value and one error naming the key
   * and the message is logged between the retrieval line and the end line.
   */
  lemma RunWithSecretKey(env: Env, fetch: string -> Result<string, string>, i: nat)
    requires IsHosted(env)
    requires DistinctKeys(env)
    requires i < |env| && env[i].0 == SecretKeyName
    ensures Run(env, fetch).requests == [env[i].1]
    ensures fetch(env[i].1).Ok? ==>
              Run(env, fetch).env == env[i := (SecretKeyName, fetch(env[i].1).value)] &&
              Run(env, fetch).log == [Info(StartMessage), Info(RetrievingMessage(SecretKeyName)), Info(DoneMessage)]
    ensures fetch(env[i].1).Err? ==>
              Run(env, fetch).env == env &&
              Run(env, fetch).log == [Info(StartMessage), Info(RetrievingMessage(SecretKeyName)),
                                      Error(SecretKeyName, fetch(env[i].1).error), Info(DoneMessage)]
  {
    OnlyOneSelected(env, i);
    EnvOnlyAt(env, fetch, i, |env|);
    LogOnlyAt(env, fetch, i, |env|);
    RequestsOnlyAt(env, i, |env|);
    var loopLog := LogAfter(env, |env|, fetch);
    assert Run(env, fetch).log == [Info(StartMessage)] + loopLog + [Info(DoneMessage)];
    match fetch(env[i].1)
    case Ok(secret) =>
      AssignAt(env, i, secret);
      assert loopLog == [Info(RetrievingMessage(SecretKeyName))];
    case Err(message) =>
      assert loopLog == [Info(RetrievingMessage(SecretKeyName)), Error(SecretKeyName, message)];
  }

  /**
   * Not idempotent: after a successful substitution the variable is still
   * named `SECRET_KEY`, so a second call sends the secret itself to the store.
   */
  lemma RerunFetchesSubstitutedValue(env: Env, fetch: string -> Result<string, string>, i: nat, secret: string)
    requires IsHosted(env)
    requires DistinctKeys(env)
    requires i < |env| && env[i].0 == SecretKeyName
    requires fetch(env[i].1) == Ok(secret)
    ensures Run(Run(env, fetch).env, fetch).requests == [secret]
  {
    RunWithSecretKey(env, fetch, i);
    var next := env[i := (SecretKeyName, secret)];
    assert Run(env, fetch).env == next;
    AssignAt(env, i, secret);
    AssignLookup(env, SecretKeyName, secret, ServiceMarker);
    AssignLookup(env, SecretKeyName, secret, RuntimeMarker);
    assert IsHosted(next);
    assert Keys(env)[i] == SecretKeyName;
    SameKeysDistinct(env, next);
    RunWithSecretKey(next, fetch, i);
  }

  /** The secret store of the repository's test: every reference resolves to "Mock-Secret". */
  function MockFetch(reference: string): Result<string, string>
  {
    Ok("Mock-Secret")
  }

  /** The environment of the repository's test. */
  const TestEnv: Env := [(ServiceMarker, "x"), (RuntimeMarker, "x"), ("TEST_SECRET", "secret-reference")]

  /**
   * The test's scenario as the code is written: `TEST_SECRET` is not
   * selected, so it keeps its reference value and nothing is fetched.
   */
  lemma TestScenarioLeavesTestSecret()
    ensures Lookup(Run(TestEnv, MockFetch).env, "TEST_SECRET") == Some("secret-reference")
    ensures Run(TestEnv, MockFetch) == Outcome(TestEnv, [Info(StartMessage), Info(DoneMessage)], [])
  {
    assert Keys(TestEnv) == [ServiceMarker, RuntimeMarker, "TEST_SECRET"];
    assert Lookup(TestEnv, ServiceMarker) == Some("x");
    assert TestEnv[0].0 != "TEST_SECRET" && TestEnv[1].0 != "TEST_SECRET";
    assert Lookup(TestEnv, "TEST_SECRET") == Lookup(TestEnv[2..], "TEST_SECRET") == Some("secret-reference");
    RunWithoutSecretKey(TestEnv, MockFetch);
  }
}

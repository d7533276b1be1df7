/**
 * The process environment: an ordered collection of string-valued variables,
 * read by key (`process.env[key]`), enumerated in order (`Object.entries`)
 * and written by key (`process.env[key] = value`).
 */
module Environment {
  import opened Wrappers

  /** One environment variable: its name and its value. */
  type Entry = (string, string)

  /** The environment as its entries in enumeration order. */
  type Env = seq<Entry>

  /** The variable names of `env`, in enumeration order. */
  function Keys(env: Env): seq<string>
  {
    seq(|env|, i requires 0 <= i < |env| => env[i].0)
  }

  /** A process environment never holds the same name twice. */
  predicate DistinctKeys(env: Env)
  {
    forall i, j :: 0 <= i < j < |env| ==> env[i].0 != env[j].0
  }

  /** `env[key]`: the value of the first entry named `key`, or None when no entry has that name. */
  function Lookup(env: Env, key: string): Option<string>
  {
    if env == [] then None
    else if env[0].0 == key then Some(env[0].1)
    else Lookup(env[1..], key)
  }

  /** Lookup finds a value exactly when the name is present, and the value it finds belongs to an entry with that name. */
  lemma {:induction false} LookupFinds(env: Env, key: string)
    ensures Lookup(env, key).None? <==> key !in Keys(env)
    ensures Lookup(env, key).Some? ==> exists i :: 0 <= i < |env| && env[i] == (key, Lookup(env, key).value)
  {
    if env != [] {
      assert Keys(env) == [env[0].0] + Keys(env[1..]);
      if env[0].0 != key {
        LookupFinds(env[1..], key);
        if Lookup(env, key).Some? {
          var i :| 0 <= i < |env[1..]| && env[1..][i] == (key, Lookup(env, key).value);
          assert env[i + 1] == env[1..][i];
        }
      }
    }
  }

  /** `env[key] = value`: overwrite the entry named `key` in place, or append one when there is none. */
  function Assign(env: Env, key: string, value: string): Env
  {
    if env == [] then [(key, value)]
    else if env[0].0 == key then [(key, value)] + env[1..]
    else [env[0]] + Assign(env[1..], key, value)
  }

  /**
   * Assigning to a name that is present keeps the names and their order;
   * assigning to a new name appends it. No entry with another name changes.
   */
  lemma {:induction false} AssignKeys(env: Env, key: string, value: string)
    ensures key in Keys(env) ==> Keys(Assign(env, key, value)) == Keys(env)
    ensures key !in Keys(env) ==> Keys(Assign(env, key, value)) == Keys(env) + [key]
    ensures forall i :: 0 <= i < |env| && env[i].0 != key ==> Assign(env, key, value)[i] == env[i]
  {
    var r := Assign(env, key, value);
    if env == [] {
    } else if env[0].0 == key {
      assert Keys(env)[0] == key;
      assert Keys(r) == Keys(env);
    } else {
      var tail := Assign(env[1..], key, value);
      AssignKeys(env[1..], key, value);
      assert Keys(env) == [env[0].0] + Keys(env[1..]);
      assert Keys(r) == [env[0].0] + Keys(tail);
      forall i | 0 <= i < |env| && env[i].0 != key ensures r[i] == env[i] {
        if i > 0 {
          assert r[i] == tail[i - 1] && env[i] == env[1..][i - 1];
        }
      }
    }
  }

  /** After `env[key] = value`, reading `key` gives `value` and reading any other name gives what it gave before. */
  lemma {:induction false} AssignLookup(env: Env, key: string, value: string, other: string)
    ensures Lookup(Assign(env, key, value), key) == Some(value)
    ensures other != key ==> Lookup(Assign(env, key, value), other) == Lookup(env, other)
  {
    if env != [] && env[0].0 != key {
      AssignLookup(env[1..], key, value, other);
    }
  }

  /** Looking a variable up by name returns the value of the entry that holds that name. */
  lemma {:induction false} LookupAt(env: Env, i: nat)
    requires DistinctKeys(env)
    requires i < |env|
    ensures Lookup(env, env[i].0) == Some(env[i].1)
  {
    if i > 0 {
      assert env[0].0 != env[i].0;
      assert env[1..][i - 1] == env[i];
      LookupAt(env[1..], i - 1);
    }
  }

  /** With distinct names, assigning to a name that is present rewrites exactly the entry that holds it. */
  lemma {:induction false} AssignAt(env: Env, i: nat, value: string)
    requires DistinctKeys(env)
    requires i < |env|
    ensures Assign(env, env[i].0, value) == env[i := (env[i].0, value)]
  {
    if i > 0 {
      assert env[0].0 != env[i].0;
      assert env[1..][i - 1] == env[i];
      AssignAt(env[1..], i - 1, value);
      assert env[i := (env[i].0, value)] == [env[0]] + env[1..][i - 1 := (env[i].0, value)];
    }
  }

  /** Two environments with the same names in the same order agree on whether the names are distinct. */
  lemma SameKeysDistinct(a: Env, b: Env)
    requires Keys(a) == Keys(b)
    requires DistinctKeys(a)
    ensures DistinctKeys(b)
  {
    forall i, j | 0 <= i < j < |b| ensures b[i].0 != b[j].0 {
      assert Keys(a)[i] == Keys(b)[i] && Keys(a)[j] == Keys(b)[j];
    }
  }

  /** The live process environment, updated in place. */
  class ProcessEnv {
    var entries: Env

    constructor (initial: Env)
      ensures entries == initial
    {
      entries := initial;
    }

    /** `process.env[key]`. */
    function Get(key: string): Option<string>
      reads this
    {
      Lookup(entries, key)
    }

    /** `process.env[key] = value`. */
    method Set(key: string, value: string)
      modifies this
      ensures entries == Assign(old(entries), key, value)
    {
      entries := Assign(entries, key, value);
    }
  }
}

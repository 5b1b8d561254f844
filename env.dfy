/**
 * Environment configuration: the application URL with its development default, the
 * variables read with an empty default, and the check for missing required variables.
 * The environment is a map from variable names to values; an unset variable is absent.
 */
module Env {
  import opened Wrappers

  type Environment = map<string, string>

  /** JavaScript truthiness of `process.env[key]`: set and non-empty. */
  predicate IsSet(env: Environment, key: string) { key in env && env[key] != "" }

  /** `process.env[key] || fallback`. */
  function ValueOr(env: Environment, key: string, fallback: string): (v: string)
    ensures IsSet(env, key) ==> v == env[key]
    ensures !IsSet(env, key) ==> v == fallback
  {
    if IsSet(env, key) then env[key] else fallback
  }

  const DefaultAppUrl := "http://localhost:3000"

  /** `APP_URL`. */
  function AppUrl(env: Environment): string { ValueOr(env, "NEXT_PUBLIC_APP_URL", DefaultAppUrl) }

  /** `SUPABASE_URL` and `SUPABASE_ANON_KEY`: empty when unset. */
  function SupabaseUrl(env: Environment): string { ValueOr(env, "NEXT_PUBLIC_SUPABASE_URL", "") }
  function SupabaseAnonKey(env: Environment): string { ValueOr(env, "NEXT_PUBLIC_SUPABASE_ANON_KEY", "") }

  /** The variables the server needs, in the order they are checked. */
  const Required: seq<string> := [
    "NEXT_PUBLIC_SUPABASE_URL",
    "NEXT_PUBLIC_SUPABASE_ANON_KEY",
    "SUPABASE_SERVICE_ROLE_KEY",
    "NOTION_API_KEY",
    "NOTION_DATABASE_ID",
    "NOTION_ITEMS_DATABASE_ID"]

  /** `keys.filter((key) => !process.env[key])`. */
  function MissingOf(env: Environment, keys: seq<string>): (r: seq<string>)
    ensures |r| <= |keys|
    ensures forall k :: k in r <==> k in keys && !IsSet(env, k)
  {
    if keys == [] then []
    else if !IsSet(env, keys[0]) then [keys[0]] + MissingOf(env, keys[1..])
    else MissingOf(env, keys[1..])
  }

  /** `validateEnv()`. */
  function ValidateEnv(env: Environment): seq<string>
  {
    MissingOf(env, Required)
  }

  predicate IsSubsequence(sub: seq<string>, s: seq<string>)
    decreases |s|
  {
    if sub == [] then true
    else if s == [] then false
    else if sub[0] == s[0] then IsSubsequence(sub[1..], s[1..])
    else IsSubsequence(sub, s[1..])
  }

  predicate NoDuplicates(s: seq<string>) { forall i, j :: 0 <= i < j < |s| ==> s[i] != s[j] }

  lemma {:induction false} MissingOfOrdered(env: Environment, keys: seq<string>)
    ensures IsSubsequence(MissingOf(env, keys), keys)
  {
    if keys != [] {
      MissingOfOrdered(env, keys[1..]);
      if !IsSet(env, keys[0]) {
        var r := MissingOf(env, keys);
        assert r[1..] == MissingOf(env, keys[1..]);
      } else {
        SubsequenceOfTail(MissingOf(env, keys[1..]), keys);
      }
    }
  }

  lemma {:induction false} SubsequenceOfTail(sub: seq<string>, s: seq<string>)
    requires s != [] && IsSubsequence(sub, s[1..])
    ensures IsSubsequence(sub, s)
    decreases |s|, 0
  {
    if sub != [] && sub[0] == s[0] {
      SubsequenceDropFirst(sub, s[1..]);
    }
  }

  lemma {:induction false} SubsequenceDropFirst(sub: seq<string>, s: seq<string>)
    requires sub != [] && IsSubsequence(sub, s)
    ensures IsSubsequence(sub[1..], s)
    decreases |s|, 1
  {
    if sub[0] == s[0] {
      if sub[1..] != [] {
        SubsequenceOfTail(sub[1..], s);
      }
    } else {
      SubsequenceDropFirst(sub, s[1..]);
      SubsequenceOfTail(sub[1..], s);
    }
  }

  lemma {:induction false} MissingOfDistinct(env: Environment, keys: seq<string>)
    requires NoDuplicates(keys)
    ensures NoDuplicates(MissingOf(env, keys))
  {
    if keys != [] {
      assert NoDuplicates(keys[1..]) by {
        forall i, j | 0 <= i < j < |keys[1..]| ensures keys[1..][i] != keys[1..][j] {
          assert keys[1..][i] == keys[i + 1] && keys[1..][j] == keys[j + 1];
        }
      }
      MissingOfDistinct(env, keys[1..]);
      assert keys[0] !in keys[1..] by {
        forall i | 0 <= i < |keys[1..]| ensures keys[1..][i] != keys[0] {
          assert keys[1..][i] == keys[i + 1];
        }
      }
    }
  }

  /**
   * `validateEnv` lists exactly the required variables that are unset or empty, in the
   * order of the required list and each once; it is empty exactly when all six are set.
   */
  lemma ValidateEnvSpec(env: Environment)
    ensures forall k :: k in ValidateEnv(env) <==> k in Required && !IsSet(env, k)
    ensures IsSubsequence(ValidateEnv(env), Required)
    ensures NoDuplicates(ValidateEnv(env))
    ensures ValidateEnv(env) == [] <==> forall k :: k in Required ==> IsSet(env, k)
  {
    MissingOfOrdered(env, Required);
    MissingOfDistinct(env, Required);
    if ValidateEnv(env) != [] {
      assert ValidateEnv(env)[0] in ValidateEnv(env);
    }
  }
}

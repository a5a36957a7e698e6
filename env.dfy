/** Environment placeholders: `${env[NAME]}` tokens are replaced by the
    value of the environment variable `NAME`. The process environment is a
    map handed in by the caller. */
module Env {
  import opened Wrappers
  import opened VarParser

  type Environment = map<string, string>

  /** `store.Replace`: `os.Getenv`, which is empty for an unset variable.
      The ensures spell out that rule; an empty result is what makes the
      parser keep the token verbatim. */
  function Replace(env: Environment, k: string): (v: string)
    ensures k in env ==> v == env[k]
    ensures k !in env ==> v == ""
  {
    if k in env then env[k] else ""
  }

  /** The environment as the replacer a parser runs against. */
  function Source(env: Environment): string -> string {
    k => Replace(env, k)
  }

  /** `Parse`: substitution of `${env[...]}` tokens from the environment. */
  function Parse(env: Environment, s: string): Result<string, Panic> {
    Substitute("env", s, Source(env))
  }

  lemma ParseEmpty(env: Environment)
    ensures Parse(env, "") == Ok("")
  {
    EmptyInput("env", Source(env));
  }

  /** A set, non-empty variable replaces its token. */
  lemma ParseSet(env: Environment, pre: string, key: string, post: string)
    requires Delimiter !in pre && Delimiter !in post && RightBracket !in key
    requires key in env && env[key] != "" && Delimiter !in env[key]
    ensures Parse(env, pre + Term("env", key) + post) == Ok(pre + env[key] + post)
  {
    TokenReplaced("env", pre, key, post, Source(env));
  }

  /** A token naming an unset or empty variable is left verbatim. */
  lemma ParseUnsetKept(env: Environment, pre: string, key: string, post: string)
    requires Delimiter !in pre + "env" + key + post && RightBracket !in key
    requires key !in env || env[key] == ""
    ensures Parse(env, pre + Term("env", key) + post) == Ok(pre + Term("env", key) + post)
  {
    TokenKeptWhenUnresolved("env", pre, key, post, Source(env));
  }

  /** Stash tokens pass through the environment pass untouched: a string
      whose every `${` opens a token of another kind, such as `${stash[`, is
      kept. This is `ForeignTokensUntouched` for the environment's own
      `Parse`, as `Stash.ParseLeavesEnvTokens` is for the stash's. */
  lemma ParseLeavesStashTokens(env: Environment, s: string)
    requires OnlyOtherOpenings(s, "env")
    ensures Parse(env, s) == Ok(s)
  {
    ForeignTokensUntouched("env", s, Source(env));
  }
}

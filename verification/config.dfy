/** The settings read from the environment and `validate_config`.

    The environment is a map from variable names to values; `os.getenv`
    gives `None` for an absent name and applies its default only then, so a
    variable set to the empty string stays empty. */
module Config {
  import opened Wrappers
  import opened Strings

  type Env = map<string, string>

  const GithubTokenVar := "GITHUB_TOKEN"
  const OpenAiKeyVar := "OPENAI_API_KEY"
  const RepositoryVar := "REPOSITORY"

  const DefaultRepository := "owner/repo"

  const MissingPrefix := "Missing required environment variables: "
  const RepositoryFormatMessage := "REPOSITORY must be in format 'owner/repo'"

  /** `os.getenv(name)`. */
  function GetEnv(env: Env, name: string): (v: Option<string>)
    ensures v.Some? <==> name in env
    ensures v.Some? ==> v.value == env[name]
  {
    if name in env then Some(env[name]) else None
  }

  /** `os.getenv(name, default)`. */
  function GetEnvOr(env: Env, name: string, default: string): (v: string)
    ensures name in env ==> v == env[name]
    ensures name !in env ==> v == default
  {
    match GetEnv(env, name)
    case Some(value) => value
    case None => default
  }

  /** The module-level settings the validator reads. */
  datatype Settings = Settings(githubToken: Option<string>, repository: string, openAiApiKey: Option<string>)

  function Load(env: Env): (s: Settings)
    ensures s.githubToken == GetEnv(env, GithubTokenVar)
    ensures s.openAiApiKey == GetEnv(env, OpenAiKeyVar)
    ensures RepositoryVar !in env ==> s.repository == DefaultRepository
    ensures RepositoryVar in env ==> s.repository == env[RepositoryVar]
  {
    Settings(GetEnv(env, GithubTokenVar), GetEnvOr(env, RepositoryVar, DefaultRepository),
             GetEnv(env, OpenAiKeyVar))
  }

  /** Python truthiness of an optional string: neither `None` nor empty. */
  predicate Truthy(v: Option<string>) {
    v.Some? && v.value != ""
  }

  /** The two ways `validate_config` raises `ValueError`. */
  datatype ConfigError =
    | MissingVariables(names: seq<string>)
    | MalformedRepository

  /** The text of the `ValueError`. */
  function Message(e: ConfigError): string {
    match e
    case MissingVariables(names) => MissingPrefix + Join(names, ", ")
    case MalformedRepository => RepositoryFormatMessage
  }

  /** The names whose value is missing or empty, in the order of the
      `required_vars` dictionary. */
  function Missing(s: Settings): (names: seq<string>)
    ensures GithubTokenVar in names <==> !Truthy(s.githubToken)
    ensures OpenAiKeyVar in names <==> !Truthy(s.openAiApiKey)
    ensures forall n :: n in names ==> n == GithubTokenVar || n == OpenAiKeyVar
    ensures |names| == (if Truthy(s.githubToken) then 0 else 1) + (if Truthy(s.openAiApiKey) then 0 else 1)
    ensures !Truthy(s.githubToken) ==> names[0] == GithubTokenVar
  {
    (if Truthy(s.githubToken) then [] else [GithubTokenVar])
    + (if Truthy(s.openAiApiKey) then [] else [OpenAiKeyVar])
  }

  /** `validate_config()`: passes iff both tokens are set and non-empty and
      the repository contains `/`; a missing token is reported before a
      malformed repository. */
  function Validate(s: Settings): (r: Outcome<ConfigError>)
    ensures r.Pass? <==> Truthy(s.githubToken) && Truthy(s.openAiApiKey) && '/' in s.repository
    ensures r.Fail? && r.error.MissingVariables? <==> !Truthy(s.githubToken) || !Truthy(s.openAiApiKey)
    ensures r.Fail? && r.error.MissingVariables? ==> r.error.names == Missing(s) && |r.error.names| > 0
    ensures r == Fail(MalformedRepository) <==>
              Truthy(s.githubToken) && Truthy(s.openAiApiKey) && '/' !in s.repository
  {
    var missing := Missing(s);
    if |missing| > 0 then Fail(MissingVariables(missing))
    else if s.repository == "" || '/' !in s.repository then Fail(MalformedRepository)
    else Pass
  }

  /** With both tokens set and `REPOSITORY` unset, the default repository
      `owner/repo` passes validation. */
  lemma DefaultRepositoryPasses(env: Env)
    requires GithubTokenVar in env && env[GithubTokenVar] != ""
    requires OpenAiKeyVar in env && env[OpenAiKeyVar] != ""
    requires RepositoryVar !in env
    ensures Validate(Load(env)) == Pass
  {
    assert DefaultRepository[5] == '/';
  }

  /** Setting a variable to the empty string counts as leaving it out: a
      token set to `""` is reported missing, and `REPOSITORY=""` does not
      fall back to the default but fails the format check. */
  lemma EmptyIsMissing(env: Env)
    ensures GithubTokenVar in env && env[GithubTokenVar] == "" ==>
              Validate(Load(env)).Fail? && GithubTokenVar in Validate(Load(env)).error.names
    ensures Truthy(GetEnv(env, GithubTokenVar)) && Truthy(GetEnv(env, OpenAiKeyVar))
            && RepositoryVar in env && env[RepositoryVar] == "" ==>
              Validate(Load(env)) == Fail(MalformedRepository)
  {
  }

  /** With one token missing, the message names that token alone. */
  lemma OneMissingMessage(s: Settings)
    requires Truthy(s.githubToken) != Truthy(s.openAiApiKey)
    ensures Validate(s).Fail?
    ensures Message(Validate(s).error)
            == MissingPrefix + (if Truthy(s.githubToken) then OpenAiKeyVar else GithubTokenVar)
  {
  }

  /** The message for both tokens missing names them in dictionary order. */
  lemma BothMissingMessage(s: Settings)
    requires !Truthy(s.githubToken) && !Truthy(s.openAiApiKey)
    ensures Validate(s).Fail?
    ensures Message(Validate(s).error)
            == MissingPrefix + (GithubTokenVar + ", " + OpenAiKeyVar)
  {
    var names := [GithubTokenVar, OpenAiKeyVar];
    assert Missing(s) == names;
    assert names[1..] == [OpenAiKeyVar];
    assert Join(names, ", ") == GithubTokenVar + ", " + OpenAiKeyVar;
  }
}

/**
 * The settings file, once parsed: an API token and the conversations and users
 * whose direct messages are to be cleared, and the check applied to it before
 * anything is sent to the platform.
 */
module Config {
  import opened Wrappers

  /** The parsed YAML settings (`apitoken`, `conversation`, `userid`). */
  datatype Config = Config(token: string, convs: seq<string>, users: seq<string>)

  /** Why a configuration is refused. */
  datatype ConfigError =
    | InvalidToken  // the API token is empty
    | NoTarget      // neither a user nor a conversation is named

  /** A configuration the cleaner may act on: a token and at least one target. */
  predicate WellFormed(c: Config)
  {
    |c.token| > 0 && (|c.users| > 0 || |c.convs| > 0)
  }

  /** `validateYmlFile`: accept a configuration unchanged or say why it is refused. */
  function ValidateConfig(c: Config): (r: Result<Config, ConfigError>)
    ensures c.token == [] ==> r == Failure(InvalidToken)
    ensures c.token != [] ==> (r.Failure? <==> c.users == [] && c.convs == [])
    ensures r.Failure? && c.token != [] ==> r.error == NoTarget
    ensures r.Success? ==> r.value == c
    ensures r.Success? <==> WellFormed(c)
  {
    if c.token == "" then Failure(InvalidToken)
    else if |c.users| == 0 && |c.convs| == 0 then Failure(NoTarget)
    else Success(c)
  }
}

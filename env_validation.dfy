/**
 * The startup check of the environment: the two required keys must be set,
 * and every other key gets its default when absent.
 */
module EnvValidation {
  import opened Wrappers

  /** The raw environment: a key is absent (`undefined`) or holds a string. */
  type Env = map<string, string>

  /** `EnvConfig`, the record the check returns. */
  datatype EnvConfig = EnvConfig(
    port: string,
    nodeEnv: string,
    mongodbUri: string,
    jwtSecret: string,
    jwtAccessExpiry: string,
    jwtRefreshExpiry: string,
    swaggerPath: string,
    swaggerTitle: string,
    swaggerDescription: string,
    swaggerVersion: string)

  /** The required keys, in the order the error lists them. */
  const Required: seq<string> := ["MONGODB_URI", "JWT_SECRET"]

  /** `config[key]` is truthy: present and not the empty string. */
  predicate IsSet(env: Env, key: string) {
    key in env && env[key] != ""
  }

  /** `keys.filter((key) => !config[key])`. */
  function MissingOf(keys: seq<string>, env: Env): (r: seq<string>)
    ensures |r| <= |keys|
    ensures forall k :: k in r <==> k in keys && !IsSet(env, k)
  {
    if keys == [] then []
    else (if IsSet(env, keys[0]) then [] else [keys[0]]) + MissingOf(keys[1..], env)
  }

  function Missing(env: Env): seq<string> {
    MissingOf(Required, env)
  }

  /** `parts.join(sep)`. */
  function Join(parts: seq<string>, sep: string): string {
    if |parts| == 0 then ""
    else if |parts| == 1 then parts[0]
    else parts[0] + sep + Join(parts[1..], sep)
  }

  /** `config[key] ?? fallback`: the fallback only when the key is absent. */
  function ValueOr(env: Env, key: string, fallback: string): string {
    if key in env then env[key] else fallback
  }

  const MessageHead := "Missing required env: "
  const MessageTail := ". Check your .env file."

  function MissingMessage(missing: seq<string>): string {
    MessageHead + Join(missing, ", ") + MessageTail
  }

  /** `validateEnv(config)`. */
  function ValidateEnv(env: Env): (r: Result<EnvConfig, string>)
    ensures r.Failure? <==> |Missing(env)| > 0
    ensures r.Failure? ==> r.error == MissingMessage(Missing(env))
  {
    var missing := Missing(env);
    if |missing| > 0 then Failure(MissingMessage(missing))
    else
      assert IsSet(env, "MONGODB_URI") by {
        assert "MONGODB_URI" in Required;
      }
      Success(EnvConfig(
        ValueOr(env, "PORT", "3000"),
        ValueOr(env, "NODE_ENV", "development"),
        env["MONGODB_URI"],
        ValueOr(env, "JWT_SECRET", ""),
        ValueOr(env, "JWT_ACCESS_EXPIRY", "15m"),
        ValueOr(env, "JWT_REFRESH_EXPIRY", "7d"),
        ValueOr(env, "SWAGGER_PATH", "docs"),
        ValueOr(env, "SWAGGER_TITLE", "API"),
        ValueOr(env, "SWAGGER_DESCRIPTION", "API documentation"),
        ValueOr(env, "SWAGGER_VERSION", "1.0")))
  }

  /** The record written back as an environment. */
  function AsEnv(c: EnvConfig): Env {
    map[
      "PORT" := c.port,
      "NODE_ENV" := c.nodeEnv,
      "MONGODB_URI" := c.mongodbUri,
      "JWT_SECRET" := c.jwtSecret,
      "JWT_ACCESS_EXPIRY" := c.jwtAccessExpiry,
      "JWT_REFRESH_EXPIRY" := c.jwtRefreshExpiry,
      "SWAGGER_PATH" := c.swaggerPath,
      "SWAGGER_TITLE" := c.swaggerTitle,
      "SWAGGER_DESCRIPTION" := c.swaggerDescription,
      "SWAGGER_VERSION" := c.swaggerVersion]
  }

  /** The missing keys are exactly the unset required ones, in the order
      MONGODB_URI, JWT_SECRET. */
  lemma MissingKeysInOrder(env: Env)
    ensures Missing(env) ==
      (if IsSet(env, "MONGODB_URI") then [] else ["MONGODB_URI"]) +
      (if IsSet(env, "JWT_SECRET") then [] else ["JWT_SECRET"])
  {
    var tail := ["JWT_SECRET"];
    assert Required[0] == "MONGODB_URI" && Required[1..] == tail;
    assert tail[0] == "JWT_SECRET" && tail[1..] == [];
    assert MissingOf(tail, env) == (if IsSet(env, "JWT_SECRET") then [] else ["JWT_SECRET"]) + MissingOf([], env);
  }

  /** The error names every unset required key, in order. */
  lemma ValidateEnvErrors(env: Env)
    ensures !IsSet(env, "MONGODB_URI") && !IsSet(env, "JWT_SECRET") ==>
      ValidateEnv(env) == Failure(MessageHead + "MONGODB_URI, JWT_SECRET" + MessageTail)
    ensures !IsSet(env, "MONGODB_URI") && IsSet(env, "JWT_SECRET") ==>
      ValidateEnv(env) == Failure(MessageHead + "MONGODB_URI" + MessageTail)
    ensures IsSet(env, "MONGODB_URI") && !IsSet(env, "JWT_SECRET") ==>
      ValidateEnv(env) == Failure(MessageHead + "JWT_SECRET" + MessageTail)
  {
    MissingKeysInOrder(env);
    var both := ["MONGODB_URI", "JWT_SECRET"];
    assert both[1..] == ["JWT_SECRET"];
    assert Join(both, ", ") == "MONGODB_URI, JWT_SECRET";
    assert Join(["MONGODB_URI"], ", ") == "MONGODB_URI";
    assert Join(["JWT_SECRET"], ", ") == "JWT_SECRET";
  }

  /** The check fails exactly when a required key is absent or empty. */
  lemma ValidateEnvFailsIff(env: Env)
    ensures ValidateEnv(env).Failure? <==> !IsSet(env, "MONGODB_URI") || !IsSet(env, "JWT_SECRET")
  {
    MissingKeysInOrder(env);
  }

  /** On success: the required values are non-empty and passed through,
      present optional values are passed through unchanged (even when
      empty), and absent ones take their defaults. */
  lemma ValidateEnvDefaults(env: Env)
    requires ValidateEnv(env).Success?
    ensures var c := ValidateEnv(env).value;
      && IsSet(env, "MONGODB_URI") && c.mongodbUri == env["MONGODB_URI"] != ""
      && IsSet(env, "JWT_SECRET") && c.jwtSecret == env["JWT_SECRET"] != ""
      && c.port == (if "PORT" in env then env["PORT"] else "3000")
      && c.nodeEnv == (if "NODE_ENV" in env then env["NODE_ENV"] else "development")
      && c.jwtAccessExpiry == (if "JWT_ACCESS_EXPIRY" in env then env["JWT_ACCESS_EXPIRY"] else "15m")
      && c.jwtRefreshExpiry == (if "JWT_REFRESH_EXPIRY" in env then env["JWT_REFRESH_EXPIRY"] else "7d")
      && c.swaggerPath == (if "SWAGGER_PATH" in env then env["SWAGGER_PATH"] else "docs")
      && c.swaggerTitle == (if "SWAGGER_TITLE" in env then env["SWAGGER_TITLE"] else "API")
      && c.swaggerDescription == (if "SWAGGER_DESCRIPTION" in env then env["SWAGGER_DESCRIPTION"] else "API documentation")
      && c.swaggerVersion == (if "SWAGGER_VERSION" in env then env["SWAGGER_VERSION"] else "1.0")
  {
    ValidateEnvFailsIff(env);
    assert IsSet(env, "JWT_SECRET");
  }

  /** Every key of the record is present in its environment, with its value. */
  lemma AsEnvHolds(c: EnvConfig)
    ensures var e := AsEnv(c);
      && "PORT" in e && e["PORT"] == c.port
      && "NODE_ENV" in e && e["NODE_ENV"] == c.nodeEnv
      && "MONGODB_URI" in e && e["MONGODB_URI"] == c.mongodbUri
      && "JWT_SECRET" in e && e["JWT_SECRET"] == c.jwtSecret
      && "JWT_ACCESS_EXPIRY" in e && e["JWT_ACCESS_EXPIRY"] == c.jwtAccessExpiry
      && "JWT_REFRESH_EXPIRY" in e && e["JWT_REFRESH_EXPIRY"] == c.jwtRefreshExpiry
      && "SWAGGER_PATH" in e && e["SWAGGER_PATH"] == c.swaggerPath
      && "SWAGGER_TITLE" in e && e["SWAGGER_TITLE"] == c.swaggerTitle
      && "SWAGGER_DESCRIPTION" in e && e["SWAGGER_DESCRIPTION"] == c.swaggerDescription
      && "SWAGGER_VERSION" in e && e["SWAGGER_VERSION"] == c.swaggerVersion
  {
  }

  /** Validating the check's own output gives the same record back. */
  lemma ValidateEnvIdempotent(env: Env)
    requires ValidateEnv(env).Success?
    ensures ValidateEnv(AsEnv(ValidateEnv(env).value)) == ValidateEnv(env)
  {
    var c := ValidateEnv(env).value;
    ValidateEnvDefaults(env);
    var e := AsEnv(c);
    AsEnvHolds(c);
    ValidateEnvFailsIff(e);
    ValidateEnvDefaults(e);
  }
}

/** The bot's configuration: values read once from the process environment
    plus fixed settings, a check that the required values are present, and
    the summary published by the status endpoint. */
module BotConfig {
  import opened Common

  /** The process environment, as `os.getenv` sees it. */
  type Environment = map<string, string>

  datatype Config = Config(
    telegramToken: string,
    geminiApiKey: string,
    adminId: int,
    webhookUrl: Option<string>,
    webhookPort: int,
    botUsername: string,
    maxMessageLength: int,
    maxImageSize: int,
    allowedImageTypes: seq<string>,
    rateLimitMessages: int,
    rateLimitWindow: int,
    logLevel: string)

  const DefaultMaxMessageLength := 4096
  const DefaultMaxImageSize := 20 * 1024 * 1024
  const DefaultAllowedImageTypes := ["image/jpeg", "image/png", "image/webp"]
  const DefaultRateLimitMessages := 10
  const DefaultRateLimitWindow := 60

  /** `os.getenv(key, default)`. */
  function GetEnv(env: Environment, key: string, default: string): string
  {
    if key in env then env[key] else default
  }

  /** `os.getenv(key)` with no default: `None` when the variable is unset. */
  function LookupEnv(env: Environment, key: string): Option<string>
  {
    if key in env then Some(env[key]) else None
  }

  /** `Config.__init__`: every field is assigned once. `int(...)` on
      ADMIN_ID or WEBHOOK_PORT raises when the text is not an integer; that is
      the error case. */
  function NewConfig(env: Environment): (r: Result<Config>)
    ensures r.Ok? <==> ParseInt(GetEnv(env, "ADMIN_ID", "0")).Some?
                       && ParseInt(GetEnv(env, "WEBHOOK_PORT", "5000")).Some?
    ensures r.Ok? ==>
      && r.value.telegramToken == GetEnv(env, "TELEGRAM_BOT_TOKEN", "")
      && r.value.geminiApiKey == GetEnv(env, "GEMINI_API_KEY", "")
      && r.value.adminId == ParseInt(GetEnv(env, "ADMIN_ID", "0")).value
      && r.value.webhookUrl == LookupEnv(env, "WEBHOOK_URL")
      && r.value.webhookPort == ParseInt(GetEnv(env, "WEBHOOK_PORT", "5000")).value
      && r.value.botUsername == GetEnv(env, "BOT_USERNAME", "GeminiAIBot")
      && r.value.maxMessageLength == 4096
      && r.value.maxImageSize == 20971520
      && r.value.allowedImageTypes == ["image/jpeg", "image/png", "image/webp"]
      && r.value.rateLimitMessages == 10
      && r.value.rateLimitWindow == 60
      && r.value.logLevel == GetEnv(env, "LOG_LEVEL", "INFO")
  {
    var adminId := ParseInt(GetEnv(env, "ADMIN_ID", "0"));
    var port := ParseInt(GetEnv(env, "WEBHOOK_PORT", "5000"));
    if adminId.None? then Err("invalid literal for int(): ADMIN_ID")
    else if port.None? then Err("invalid literal for int(): WEBHOOK_PORT")
    else Ok(Config(
      telegramToken := GetEnv(env, "TELEGRAM_BOT_TOKEN", ""),
      geminiApiKey := GetEnv(env, "GEMINI_API_KEY", ""),
      adminId := adminId.value,
      webhookUrl := LookupEnv(env, "WEBHOOK_URL"),
      webhookPort := port.value,
      botUsername := GetEnv(env, "BOT_USERNAME", "GeminiAIBot"),
      maxMessageLength := DefaultMaxMessageLength,
      maxImageSize := DefaultMaxImageSize,
      allowedImageTypes := DefaultAllowedImageTypes,
      rateLimitMessages := DefaultRateLimitMessages,
      rateLimitWindow := DefaultRateLimitWindow,
      logLevel := GetEnv(env, "LOG_LEVEL", "INFO")))
  }

  /** With nothing set in the environment the integer fields take their
      defaults, so construction succeeds with admin 0 and port 5000. */
  lemma DefaultsFromEmptyEnvironment()
    ensures NewConfig(map[]).Ok?
    ensures NewConfig(map[]).value.adminId == 0
    ensures NewConfig(map[]).value.webhookPort == 5000
    ensures NewConfig(map[]).value.botUsername == "GeminiAIBot"
    ensures NewConfig(map[]).value.webhookUrl == None
  {
    ParseIntOfIntToString(0);
    assert IntToString(0) == "0";
    ParseIntOfIntToString(5000);
    assert IntToString(5000) == "5000" by {
      assert NatToString(5) == "5";
      assert NatToString(50) == "50";
      assert NatToString(500) == "500";
    }
  }

  /** An ADMIN_ID that `int` cannot read stops construction. */
  lemma MalformedAdminIdIsAnError(env: Environment)
    requires "ADMIN_ID" in env && env["ADMIN_ID"] == "abc"
    ensures NewConfig(env).Err?
  {
    assert !IsDigit(env["ADMIN_ID"][0]);
  }

  /** `validate`: the token, the API key and the admin id must all be set. */
  function Validate(c: Config): (ok: bool)
    ensures c.telegramToken == "" ==> !ok
    ensures c.geminiApiKey == "" ==> !ok
    ensures c.adminId == 0 ==> !ok
    ensures ok <==> c.telegramToken != "" && c.geminiApiKey != "" && c.adminId != 0
  {
    if c.telegramToken == "" then false
    else if c.geminiApiKey == "" then false
    else if c.adminId == 0 then false
    else true
  }

  /** A configuration built from an empty environment never validates. */
  lemma EmptyEnvironmentDoesNotValidate()
    ensures NewConfig(map[]).Ok? && !Validate(NewConfig(map[]).value)
  {
    DefaultsFromEmptyEnvironment();
  }

  datatype BotInfo = BotInfo(
    botUsername: string,
    webhookConfigured: bool,
    adminId: int,
    maxMessageLength: int,
    allowedImageTypes: seq<string>)

  /** `get_bot_info`: `bool(webhook_url)` is false for both `None` and ''. */
  function GetBotInfo(c: Config): (info: BotInfo)
    ensures info.webhookConfigured <==> c.webhookUrl.Some? && c.webhookUrl.value != ""
    ensures info.botUsername == c.botUsername && info.adminId == c.adminId
    ensures info.maxMessageLength == c.maxMessageLength
    ensures info.allowedImageTypes == c.allowedImageTypes
  {
    BotInfo(c.botUsername,
            match c.webhookUrl { case None => false case Some(url) => url != "" },
            c.adminId, c.maxMessageLength, c.allowedImageTypes)
  }
}

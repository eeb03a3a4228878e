/** The Anthropic chat adapter `Anthropic_Chat`: its constructor (defaults,
    where the API key comes from) and the request `submit_prompt` builds for
    `client.messages.create`. The call itself is not part of the model. */
module Anthropic {
  import opened Common
  import opened Messages

  /** `DEFAULT_MODEL`; declared by the source but never read by it. */
  const DefaultModel: string := "claude-3-sonnet-20240229"

  const DefaultTemperature: Value := VReal(0.2)
  const DefaultMaxTokens: Value := VInt(500)

  /** The client: the one handed in, or `anthropic.Anthropic(api_key=key)`. */
  datatype Client = Supplied(handle: nat) | Created(apiKey: Value)

  datatype InitError =
    | ConfigNotADict  // `"temperature" in config` with `config` None raises TypeError
    | MissingApiKey   // "Missing ANTHROPIC_API_KEY"

  /** The fields a constructed adapter holds. `config` is never None once
      the constructor has returned. */
  datatype Adapter = Adapter(config: Config, temperature: Value, maxTokens: Value, client: Client)

  /** The key the constructor tries when no client is supplied: `api_key`
      from a non-empty config (default `""`), and the environment variable
      `ANTHROPIC_API_KEY` (`env`, None when unset) only for an empty one. */
  function ApiKeyOf(config: Config, env: Option<string>): Value {
    if |config| > 0 then GetOr(config, "api_key", VStr(""))
    else if env.Some? then VStr(env.value)
    else VNone
  }

  /** `Anthropic_Chat(client, config)`, with `env` the value of
      `ANTHROPIC_API_KEY`. */
  function NewAdapter(client: Option<nat>, config: Option<Config>, env: Option<string>): (r: Result<Adapter, InitError>)
    ensures config.None? ==> r == Err(ConfigNotADict)
    ensures config.Some? && client.Some? ==> r.Ok? && r.value.client == Supplied(client.value)
    ensures config.Some? && client.None? ==>
      (r.Ok? <==> Truthy(ApiKeyOf(config.value, env))) &&
      (r.Err? ==> r.error == MissingApiKey) &&
      (r.Ok? ==> r.value.client == Created(ApiKeyOf(config.value, env)))
    ensures r.Ok? ==> r.value.config == config.value
    ensures r.Ok? && "temperature" in config.value ==> r.value.temperature == config.value["temperature"]
    ensures r.Ok? && "temperature" !in config.value ==> r.value.temperature == DefaultTemperature
    ensures r.Ok? && "max_tokens" in config.value ==> r.value.maxTokens == config.value["max_tokens"]
    ensures r.Ok? && "max_tokens" !in config.value ==> r.value.maxTokens == DefaultMaxTokens
  {
    if config.None? then Err(ConfigNotADict)
    else
      var cfg := config.value;
      var temperature := GetOr(cfg, "temperature", DefaultTemperature);
      var maxTokens := GetOr(cfg, "max_tokens", DefaultMaxTokens);
      if client.Some? then Ok(Adapter(cfg, temperature, maxTokens, Supplied(client.value)))
      else
        var key := ApiKeyOf(cfg, env);
        if !Truthy(key) then Err(MissingApiKey)
        else Ok(Adapter(cfg, temperature, maxTokens, Created(key)))
  }

  /** A non-empty config decides the key alone: the environment variable
      makes no difference to whether construction succeeds. */
  lemma ConfiguredKeyOnly(config: Config, env1: Option<string>, env2: Option<string>)
    requires |config| > 0
    ensures NewAdapter(None, Some(config), env1) == NewAdapter(None, Some(config), env2)
  {
  }

  /** A config naming only the model, with the environment variable set:
      construction fails for want of a key. */
  lemma EnvKeyIgnoredWhenConfigured(model: string, key: string)
    requires key != ""
    ensures NewAdapter(None, Some(map["model" := VStr(model)]), Some(key)) == Err(MissingApiKey)
  {
    var cfg := map["model" := VStr(model)];
    assert "api_key" !in cfg by {
      assert "api_key" != "model" by { assert "api_key"[0] != "model"[0]; }
    }
  }

  /** Without a config the constructor never gets as far as the environment
      variable. */
  lemma EnvKeyIgnoredWithoutConfig(key: string)
    ensures NewAdapter(None, None, Some(key)) == Err(ConfigNotADict)
  {
  }

  /** The key resolution the constructor is evidently meant to have: a
      missing config is an empty one, and the environment variable supplies
      the key whenever the config has no `api_key`. */
  function FallbackApiKeyOf(config: Config, env: Option<string>): Value {
    if "api_key" in config then config["api_key"]
    else if env.Some? then VStr(env.value)
    else VNone
  }

  function NewAdapterWithEnvFallback(client: Option<nat>, config: Option<Config>, env: Option<string>): (r: Result<Adapter, InitError>)
    ensures client.Some? ==> r.Ok? && r.value.client == Supplied(client.value)
    ensures client.None? && "api_key" !in config.GetOr(map[]) && env.Some? && env.value != "" ==>
      r.Ok? && r.value.client == Created(VStr(env.value))
    ensures client.None? && "api_key" in config.GetOr(map[]) ==>
      (r.Ok? <==> Truthy(config.value["api_key"]))
    ensures client.None? && "api_key" !in config.GetOr(map[]) && (env.None? || env.value == "") ==>
      r == Err(MissingApiKey)
    ensures r.Err? ==> r.error == MissingApiKey
    ensures r.Ok? ==> r.value.config == config.GetOr(map[])
    ensures r.Ok? && "temperature" in config.GetOr(map[]) ==> r.value.temperature == config.GetOr(map[])["temperature"]
    ensures r.Ok? && "temperature" !in config.GetOr(map[]) ==> r.value.temperature == DefaultTemperature
    ensures r.Ok? && "max_tokens" in config.GetOr(map[]) ==> r.value.maxTokens == config.GetOr(map[])["max_tokens"]
    ensures r.Ok? && "max_tokens" !in config.GetOr(map[]) ==> r.value.maxTokens == DefaultMaxTokens
  {
    var cfg := config.GetOr(map[]);
    var temperature := GetOr(cfg, "temperature", DefaultTemperature);
    var maxTokens := GetOr(cfg, "max_tokens", DefaultMaxTokens);
    if client.Some? then Ok(Adapter(cfg, temperature, maxTokens, Supplied(client.value)))
    else
      var key := FallbackApiKeyOf(cfg, env);
      if !Truthy(key) then Err(MissingApiKey)
      else Ok(Adapter(cfg, temperature, maxTokens, Created(key)))
  }

  /** The corrected resolution changes nothing where the source succeeds:
      whatever adapter the source constructs, it constructs too. */
  lemma FallbackAgreesWhereSourceSucceeds(client: Option<nat>, config: Config, env: Option<string>)
    requires NewAdapter(client, Some(config), env).Ok?
    ensures NewAdapterWithEnvFallback(client, Some(config), env) == NewAdapter(client, Some(config), env)
  {
    if |config| == 0 {
      assert "api_key" !in config by {
        assert config == map[];
      }
    }
  }

  // ---------------------------------------------------------------------
  // submit_prompt

  datatype SubmitError =
    | PromptIsNone        // "Prompt is None"
    | PromptIsEmpty       // "Prompt is empty"
    | ResponseUnassigned  // `response` read at the return without having been set

  /** The keyword arguments of `client.messages.create(...)`. */
  datatype MessagesRequest = MessagesRequest(
    model: Value,
    messages: seq<Message>,
    system: string,
    maxTokens: Value,
    temperature: Value)

  /** The system/non-system split of `submit_prompt`: the last system text
      (`''` when there is none) and the other messages, in order and
      unchanged. */
  method SplitSystem(prompt: seq<Message>) returns (system: string, noSystemPrompt: seq<Message>)
    ensures system == LastContent(prompt, "system").GetOr("")
    ensures noSystemPrompt == NonSystem(prompt)
  {
    system := "";
    noSystemPrompt := [];
    for i := 0 to |prompt|
      invariant system == LastContent(prompt[..i], "system").GetOr("")
      invariant noSystemPrompt == NonSystem(prompt[..i])
    {
      assert prompt[..i + 1] == prompt[..i] + [prompt[i]];
      assert prompt[..i + 1][..i] == prompt[..i];
      NonSystemAppend(prompt[..i], [prompt[i]]);
      assert [prompt[i]][1..] == [];
      if prompt[i].role == "system" {
        system := prompt[i].content;
      } else {
        noSystemPrompt := noSystemPrompt + [Message(prompt[i].role, prompt[i].content)];
      }
    }
    assert prompt[..|prompt|] == prompt;
  }

  /** `submit_prompt(prompt)`, up to the `messages.create` call. A request
      is built only when the config names a model; otherwise the source
      fails at its return. */
  method SubmitPrompt(adapter: Adapter, prompt: Option<seq<Message>>) returns (r: Result<MessagesRequest, SubmitError>)
    ensures prompt.None? ==> r == Err(PromptIsNone)
    ensures prompt == Some([]) ==> r == Err(PromptIsEmpty)
    ensures prompt.Some? && prompt.value != [] && "model" !in adapter.config ==> r == Err(ResponseUnassigned)
    ensures r.Ok? <==> prompt.Some? && prompt.value != [] && "model" in adapter.config
    ensures r.Ok? ==> r.value.model == adapter.config["model"]
    ensures r.Ok? ==> r.value.messages == NonSystem(prompt.value)
    ensures r.Ok? ==> r.value.system == LastContent(prompt.value, "system").GetOr("")
    ensures r.Ok? ==> r.value.maxTokens == adapter.maxTokens && r.value.temperature == adapter.temperature
  {
    if prompt.None? {
      return Err(PromptIsNone);
    }
    if |prompt.value| == 0 {
      return Err(PromptIsEmpty);
    }
    if "model" in adapter.config {
      var system, noSystemPrompt := SplitSystem(prompt.value);
      return Ok(MessagesRequest(adapter.config["model"], noSystemPrompt, system,
        adapter.maxTokens, adapter.temperature));
    }
    return Err(ResponseUnassigned);
  }

  /** `submit_prompt` as evidently meant: the model falls back to
      `DEFAULT_MODEL`, so every non-empty prompt yields a request. */
  method SubmitPromptWithDefaultModel(adapter: Adapter, prompt: Option<seq<Message>>) returns (r: Result<MessagesRequest, SubmitError>)
    ensures prompt.None? ==> r == Err(PromptIsNone)
    ensures prompt == Some([]) ==> r == Err(PromptIsEmpty)
    ensures r.Ok? <==> prompt.Some? && prompt.value != []
    ensures r.Ok? ==> r.value.model == GetOr(adapter.config, "model", VStr(DefaultModel))
    ensures r.Ok? ==> r.value.messages == NonSystem(prompt.value)
    ensures r.Ok? ==> r.value.system == LastContent(prompt.value, "system").GetOr("")
    ensures r.Ok? ==> r.value.maxTokens == adapter.maxTokens && r.value.temperature == adapter.temperature
  {
    if prompt.None? {
      return Err(PromptIsNone);
    }
    if |prompt.value| == 0 {
      return Err(PromptIsEmpty);
    }
    var system, noSystemPrompt := SplitSystem(prompt.value);
    var model := GetOr(adapter.config, "model", VStr(DefaultModel));
    return Ok(MessagesRequest(model, noSystemPrompt, system, adapter.maxTokens, adapter.temperature));
  }
}

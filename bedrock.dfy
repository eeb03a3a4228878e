/** The Amazon Bedrock chat adapters: `Bedrock_Converse`, which speaks the
    Converse API, and `Bedrock_Chat`, which sends an Anthropic-style body
    through `invoke_model`. Both check their configuration the same way;
    they differ in the request they build from a prompt. The request is the
    end of the model: the call into the Bedrock runtime is not part of it. */
module Bedrock {
  import opened Common
  import opened Messages

  /** `TEMPERATURE` and `MAX_TOKENS`, the defaults of both adapters. */
  const DefaultTemperature: Value := VReal(0.0)
  const DefaultMaxTokens: Value := VInt(1000)

  /** Which of the two adapter classes was constructed. */
  datatype Api = Converse | InvokeModel

  /** The runtime client: the one handed in, or the one
      `create_bedrock_client()` makes. */
  datatype Client = Supplied(handle: nat) | DefaultRuntime

  datatype ConfigError =
    | ConfigRequired   // "Config is required with model_id and inference parameters"
    | ModelIdRequired  // "config must contain a modelId to invoke"

  /** The fields a constructed adapter holds. */
  datatype Adapter = Adapter(api: Api, client: Client, model: Value, temperature: Value, maxTokens: Value)

  /** `Bedrock_Converse(client, config)` and `Bedrock_Chat(client, config)`:
      a missing config or a config without `modelId` raises `ValueError`;
      `temperature` and `max_tokens` keep their defaults unless the config
      names them. */
  function NewAdapter(api: Api, client: Option<nat>, config: Option<Config>): (r: Result<Adapter, ConfigError>)
    ensures r.Ok? <==> config.Some? && "modelId" in config.value
    ensures config.None? ==> r == Err(ConfigRequired)
    ensures config.Some? && "modelId" !in config.value ==> r == Err(ModelIdRequired)
    ensures r.Ok? ==> r.value.api == api && r.value.model == config.value["modelId"]
    ensures r.Ok? ==> r.value.client == (if client.Some? then Supplied(client.value) else DefaultRuntime)
    ensures r.Ok? && "temperature" in config.value ==> r.value.temperature == config.value["temperature"]
    ensures r.Ok? && "temperature" !in config.value ==> r.value.temperature == DefaultTemperature
    ensures r.Ok? && "max_tokens" in config.value ==> r.value.maxTokens == config.value["max_tokens"]
    ensures r.Ok? && "max_tokens" !in config.value ==> r.value.maxTokens == DefaultMaxTokens
  {
    var c := if client.Some? then Supplied(client.value) else DefaultRuntime;
    if config.None? then Err(ConfigRequired)
    else if "modelId" !in config.value then Err(ModelIdRequired)
    else
      var cfg := config.value;
      Ok(Adapter(api, c, cfg["modelId"],
        GetOr(cfg, "temperature", DefaultTemperature),
        GetOr(cfg, "max_tokens", DefaultMaxTokens)))
  }

  /** A config that names only the model gets the default inference
      parameters, whichever adapter is built. */
  lemma ModelOnlyConfigDefaults(api: Api, client: Option<nat>, model: Value)
    ensures var r := NewAdapter(api, client, Some(map["modelId" := model]));
      && r.Ok?
      && r.value.model == model
      && r.value.temperature == VReal(0.0)
      && r.value.maxTokens == VInt(1000)
  {
    var cfg := map["modelId" := model];
    assert "temperature" !in cfg by {
      assert "temperature" != "modelId" by { assert "temperature"[0] != "modelId"[0]; }
    }
    assert "max_tokens" !in cfg by {
      assert "max_tokens" != "modelId" by { assert "max_tokens"[1] != "modelId"[1]; }
    }
  }

  // ---------------------------------------------------------------------
  // Bedrock_Converse.submit_prompt

  /** `{"text": t}` */
  datatype ContentBlock = TextBlock(text: string)

  /** `{"role": role, "content": [{"text": …}]}` */
  datatype ConverseMessage = ConverseMessage(role: string, content: seq<ContentBlock>)

  /** `{"temperature": …, "maxTokens": …}` */
  datatype InferenceConfig = InferenceConfig(temperature: Value, maxTokens: Value)

  /** The keyword arguments of `client.converse(**converse_api_params)`;
      `system` is absent unless the last system text is non-empty. */
  datatype ConverseRequest = ConverseRequest(
    modelId: Value,
    messages: seq<ConverseMessage>,
    inferenceConfig: InferenceConfig,
    additionalModelRequestFields: map<string, Value>,
    system: Option<seq<ContentBlock>>)

  /** A chat message in the Converse shape: its content wrapped in one text
      block. */
  function Wrap(m: Message): (w: ConverseMessage)
    ensures w.role == m.role && w.content == [TextBlock(m.content)]
  {
    ConverseMessage(m.role, [TextBlock(m.content)])
  }

  function WrapAll(ms: seq<Message>): (ws: seq<ConverseMessage>)
    ensures |ws| == |ms|
    ensures forall i :: 0 <= i < |ms| ==> ws[i] == Wrap(ms[i])
  {
    if ms == [] then [] else [Wrap(ms[0])] + WrapAll(ms[1..])
  }

  lemma {:induction false} WrapAllAppend(a: seq<Message>, b: seq<Message>)
    ensures WrapAll(a + b) == WrapAll(a) + WrapAll(b)
  {
    if a == [] {
      assert a + b == b;
    } else {
      assert (a + b)[1..] == a[1..] + b;
      WrapAllAppend(a[1..], b);
    }
  }

  /** One step of either request loop: the prompt up to and including
      message `i`. */
  lemma PromptStep(prompt: seq<Message>, i: nat, role: string)
    requires i < |prompt|
    ensures prompt[..i + 1] == prompt[..i] + [prompt[i]]
    ensures LastContent(prompt[..i + 1], role) ==
      if prompt[i].role == role then Some(prompt[i].content) else LastContent(prompt[..i], role)
    ensures NonSystem(prompt[..i + 1]) ==
      NonSystem(prompt[..i]) + (if IsSystem(prompt[i]) then [] else [prompt[i]])
  {
    assert prompt[..i + 1][..i] == prompt[..i];
    NonSystemAppend(prompt[..i], [prompt[i]]);
    assert [prompt[i]][1..] == [];
  }

  /** `Bedrock_Converse.submit_prompt(prompt)`, up to the `converse` call:
      one pass over the prompt keeps the last system text and the other
      messages in order. */
  method ConverseRequestOf(adapter: Adapter, prompt: seq<Message>) returns (req: ConverseRequest)
    ensures req.modelId == adapter.model
    ensures req.messages == WrapAll(NonSystem(prompt))
    ensures req.inferenceConfig == InferenceConfig(adapter.temperature, adapter.maxTokens)
    ensures req.additionalModelRequestFields == map["top_p" := VInt(1)]
    ensures req.system.Some? <==> LastContent(prompt, "system").Some? && LastContent(prompt, "system").value != ""
    ensures req.system.Some? ==> req.system.value == [TextBlock(LastContent(prompt, "system").value)]
  {
    var inference := InferenceConfig(adapter.temperature, adapter.maxTokens);
    var additional := map["top_p" := VInt(1)];
    var systemMessage: Option<string> := None;
    var noSystemPrompt: seq<ConverseMessage> := [];
    for i := 0 to |prompt|
      invariant systemMessage == LastContent(prompt[..i], "system")
      invariant noSystemPrompt == WrapAll(NonSystem(prompt[..i]))
    {
      PromptStep(prompt, i, "system");
      if prompt[i].role == "system" {
        systemMessage := Some(prompt[i].content);
      } else {
        WrapAllAppend(NonSystem(prompt[..i]), [prompt[i]]);
        noSystemPrompt := noSystemPrompt + [Wrap(prompt[i])];
      }
    }
    assert prompt[..|prompt|] == prompt;
    req := ConverseRequest(adapter.model, noSystemPrompt, inference, additional, None);
    if systemMessage.Some? && systemMessage.value != "" {
      req := req.(system := Some([TextBlock(systemMessage.value)]));
    }
  }

  /** The Converse messages are exactly the prompt's non-system messages, in
      order, each with its role and its content as a single text block. */
  lemma ConverseMessagesAreNonSystem(prompt: seq<Message>, m: Message)
    ensures Wrap(m) in WrapAll(NonSystem(prompt)) <==> m in prompt && !IsSystem(m)
  {
    NonSystemMembers(prompt, m);
    var ns := NonSystem(prompt);
    if Wrap(m) in WrapAll(ns) {
      var i :| 0 <= i < |ns| && WrapAll(ns)[i] == Wrap(m);
      assert ns[i] == m;
    }
    if m in ns {
      var i :| 0 <= i < |ns| && ns[i] == m;
      assert WrapAll(ns)[i] == Wrap(m);
    }
  }

  // ---------------------------------------------------------------------
  // Bedrock_Chat.submit_prompt

  const AnthropicVersion: string := "bedrock-2023-05-31"

  /** The JSON body `invoke_model` is sent, as its fields. */
  datatype ChatBody = ChatBody(
    anthropicVersion: string,
    temperature: Value,
    maxTokens: Value,
    system: string,
    messages: seq<Message>)

  /** `invoke_model(body=…, modelId=…)` */
  datatype ChatRequest = ChatRequest(body: ChatBody, modelId: Value)

  /** `Bedrock_Chat.submit_prompt(prompt)`, up to the `invoke_model` call:
      only the last system text and the last user text survive; assistant
      messages are dropped. */
  method ChatRequestOf(adapter: Adapter, prompt: seq<Message>) returns (req: ChatRequest)
    ensures req.modelId == adapter.model
    ensures req.body.anthropicVersion == AnthropicVersion
    ensures req.body.temperature == adapter.temperature && req.body.maxTokens == adapter.maxTokens
    ensures req.body.system == LastContent(prompt, "system").GetOr("")
    ensures req.body.messages == [UserMessage(LastContent(prompt, "user").GetOr(""))]
  {
    var systemPrompt := "";
    var userQuery := "";
    for i := 0 to |prompt|
      invariant systemPrompt == LastContent(prompt[..i], "system").GetOr("")
      invariant userQuery == LastContent(prompt[..i], "user").GetOr("")
    {
      PromptStep(prompt, i, "system");
      PromptStep(prompt, i, "user");
      if prompt[i].role == "system" {
        systemPrompt := prompt[i].content;
      } else if prompt[i].role == "user" {
        userQuery := prompt[i].content;
      }
    }
    assert prompt[..|prompt|] == prompt;
    var body := ChatBody(AnthropicVersion, adapter.temperature, adapter.maxTokens,
      systemPrompt, [UserMessage(userQuery)]);
    req := ChatRequest(body, adapter.model);
  }

  /** With no user message the body still carries one user message, with
      empty content; with no system message the system text is empty. */
  lemma ChatDefaults(prompt: seq<Message>)
    requires forall i :: 0 <= i < |prompt| ==> prompt[i].role == "assistant"
    ensures LastContent(prompt, "system").GetOr("") == ""
    ensures LastContent(prompt, "user").GetOr("") == ""
  {
    assert "assistant" != "system" by { assert "assistant"[0] != "system"[0]; }
    assert "assistant" != "user" by { assert "assistant"[0] != "user"[0]; }
    LastContentNone(prompt, "system");
    LastContentNone(prompt, "user");
  }
}

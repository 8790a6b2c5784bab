/**
 * How `MlcModel.execute` turns a prompt and the conversation so far into the
 * configuration it hands to the inference engine: the flattened message
 * history with its offset, the effective system prompt, and the sampling
 * options.
 */
module Execute {
  import opened Wrappers

  /** The default for `max_gen_len` when the caller leaves it unset (or zero). */
  const DefaultMaxGenLen: int := 512

  /**
   * The model options. The three sampling values are floats that are only
   * passed through, so their type is the parameter `V`.
   */
  datatype Options<V> = Options(
    temperature: Option<V>,
    topP: Option<V>,
    repetitionPenalty: Option<V>,
    maxGenLen: Option<int>)

  /** The prompt of the current call. */
  datatype Prompt<V> = Prompt(prompt: string, system: Option<string>, options: Options<V>)

  /** One earlier exchange of the conversation: its prompt, its system prompt and the reply text. */
  datatype Exchange = Exchange(prompt: string, system: Option<string>, reply: string)

  datatype Role = User | Assistant {
    /** The role names the engine expects. */
    function Name(): string {
      match this
      case User => "USER"
      case Assistant => "ASSISTANT"
    }
  }

  datatype Message = Message(role: Role, text: string)

  /** The keyword arguments of `ConvConfig`; a field is `None` when its key is not set. */
  datatype ConvConfig = ConvConfig(messages: Option<seq<Message>>, offset: Option<int>, system: Option<string>)

  /** The keyword arguments of `ChatConfig`; an option is `None` when its key is not set. */
  datatype ChatConfig<V> = ChatConfig(
    maxGenLen: int,
    convConfig: ConvConfig,
    temperature: Option<V>,
    topP: Option<V>,
    repetitionPenalty: Option<V>)

  /** Python truthiness of an optional string: set and non-empty. */
  predicate Truthy(s: Option<string>) {
    s.Some? && s.value != ""
  }

  /** The user/assistant messages for a history, two per exchange. */
  function HistoryMessages(history: seq<Exchange>): seq<Message> {
    if history == [] then []
    else
      var last := history[|history| - 1];
      HistoryMessages(history[..|history| - 1]) + [Message(User, last.prompt), Message(Assistant, last.reply)]
  }

  /** The most recent truthy system prompt of a history, if any. */
  function LastSystem(history: seq<Exchange>): Option<string> {
    if history == [] then None
    else if Truthy(history[|history| - 1].system) then history[|history| - 1].system
    else LastSystem(history[..|history| - 1])
  }

  /** The system prompt the engine is configured with: the call's own, else the history's latest. */
  function EffectiveSystem(system: Option<string>, history: seq<Exchange>): (effective: Option<string>)
    ensures effective.None? || Truthy(effective)
    ensures Truthy(system) ==> effective == system
    ensures !Truthy(system) ==> effective == LastSystem(history)
    ensures effective.None? <==>
      !Truthy(system) && forall k | 0 <= k < |history| :: !Truthy(history[k].system)
  {
    LastSystemNone(history);
    if Truthy(system) then system else LastSystem(history)
  }

  /**
   * The history becomes exactly two messages per exchange, in order: the
   * exchange's prompt as `USER`, then its reply as `ASSISTANT`.
   */
  lemma {:induction false} HistoryMessagesLayout(history: seq<Exchange>)
    ensures |HistoryMessages(history)| == 2 * |history|
    ensures forall k | 0 <= k < |history| ::
      HistoryMessages(history)[2 * k] == Message(User, history[k].prompt) &&
      HistoryMessages(history)[2 * k + 1] == Message(Assistant, history[k].reply)
    ensures forall k | 0 <= k < |history| ::
      HistoryMessages(history)[2 * k].role.Name() == "USER" &&
      HistoryMessages(history)[2 * k + 1].role.Name() == "ASSISTANT"
  {
    if history != [] {
      var front := history[..|history| - 1];
      HistoryMessagesLayout(front);
      var messages := HistoryMessages(history);
      forall k | 0 <= k < |history| - 1
        ensures messages[2 * k] == Message(User, history[k].prompt)
        ensures messages[2 * k + 1] == Message(Assistant, history[k].reply)
      {
        assert front[k] == history[k];
      }
    }
  }

  /**
   * When the exchange at `j` set a system prompt and none after it did, that
   * system prompt is the history's latest.
   */
  lemma {:induction false} LastSystemIsLatest(history: seq<Exchange>, j: int)
    requires 0 <= j < |history| && Truthy(history[j].system)
    requires forall k | j < k < |history| :: !Truthy(history[k].system)
    ensures LastSystem(history) == history[j].system
  {
    if j < |history| - 1 {
      var front := history[..|history| - 1];
      assert front[j] == history[j];
      LastSystemIsLatest(front, j);
    }
  }

  /**
   * Without a system prompt of its own, a call is configured with the system
   * prompt of the latest exchange that set one.
   */
  lemma EffectiveSystemIsLatest(system: Option<string>, history: seq<Exchange>, j: int)
    requires !Truthy(system)
    requires 0 <= j < |history| && Truthy(history[j].system)
    requires forall k | j < k < |history| :: !Truthy(history[k].system)
    ensures EffectiveSystem(system, history) == history[j].system
  {
    LastSystemIsLatest(history, j);
  }

  /** A history has no latest system prompt exactly when none of its exchanges set one. */
  lemma {:induction false} LastSystemNone(history: seq<Exchange>)
    ensures LastSystem(history).None? <==> forall k | 0 <= k < |history| :: !Truthy(history[k].system)
    ensures LastSystem(history).Some? ==> Truthy(LastSystem(history))
  {
    if history != [] {
      var front := history[..|history| - 1];
      LastSystemNone(front);
      assert forall k | 0 <= k < |front| :: front[k] == history[k];
    }
  }

  /**
   * The `for prev_response in conversation.responses` loop: the message list
   * and the most recent truthy system prompt.
   */
  method FlattenHistory(history: seq<Exchange>) returns (messages: seq<Message>, system: Option<string>)
    ensures messages == HistoryMessages(history)
    ensures system == LastSystem(history)
  {
    messages, system := [], None;
    for i := 0 to |history|
      invariant messages == HistoryMessages(history[..i])
      invariant system == LastSystem(history[..i])
    {
      var previous := history[i];
      assert history[..i + 1][..i] == history[..i];
      if previous.system.Some? && previous.system.value != "" {
        system := previous.system;
      }
      messages := messages + [Message(User, previous.prompt), Message(Assistant, previous.reply)];
    }
    assert history[..|history|] == history;
  }

  /**
   * `cfg` is the configuration `execute` builds for `prompt` given the
   * conversation so far (`None` when there is no conversation).
   */
  ghost predicate ChatConfigFor<V>(prompt: Prompt<V>, conversation: Option<seq<Exchange>>, cfg: ChatConfig<V>) {
    var history := conversation.GetOr([]);
    var conv := cfg.convConfig;
    // messages and offset are set together, and only for a non-empty history
    && (conv.messages.Some? <==> history != [])
    && (conv.messages.Some? ==> conv.messages.value == HistoryMessages(history))
    && conv.offset == (if conv.messages.Some? then Some(|conv.messages.value|) else None)
    // the call's own system prompt wins over the history's latest; unset when neither exists
    && conv.system == EffectiveSystem(prompt.system, history)
    // `max_gen_len or 512`
    && cfg.maxGenLen ==
         (if prompt.options.maxGenLen.Some? && prompt.options.maxGenLen.value != 0
          then prompt.options.maxGenLen.value else DefaultMaxGenLen)
    // the sampling options are set exactly when the caller set them, to the caller's values
    && cfg.temperature == prompt.options.temperature
    && cfg.topP == prompt.options.topP
    && cfg.repetitionPenalty == prompt.options.repetitionPenalty
  }

  /** Builds `config_kwargs` and `chat_config_kwargs` key by key. */
  method BuildChatConfig<V>(prompt: Prompt<V>, conversation: Option<seq<Exchange>>) returns (cfg: ChatConfig<V>)
    ensures ChatConfigFor(prompt, conversation, cfg)
  {
    var messages: Option<seq<Message>> := None;
    var offset: Option<int> := None;
    var system: Option<string> := None;
    if conversation.Some? {
      var flat, last := FlattenHistory(conversation.value);
      HistoryMessagesLayout(conversation.value);
      system := last;
      if flat != [] {
        messages := Some(flat);
        offset := Some(|flat|);
      }
    }
    if prompt.system.Some? && prompt.system.value != "" {
      system := prompt.system;
    }
    var maxGenLen := DefaultMaxGenLen;
    if prompt.options.maxGenLen.Some? && prompt.options.maxGenLen.value != 0 {
      maxGenLen := prompt.options.maxGenLen.value;
    }
    cfg := ChatConfig(maxGenLen, ConvConfig(messages, offset, system),
                      prompt.options.temperature, prompt.options.topP, prompt.options.repetitionPenalty);
  }

  /** The engine session: constructed from the model path while in the plugin's `mlc` directory. */
  datatype ChatSession = ChatSession(modelPath: string, workingDir: string)

  /** What one call does to the engine: reset `session` with `config`, then generate from `input`. */
  datatype EngineCall<V> = EngineCall(session: ChatSession, config: ChatConfig<V>, input: string, streaming: bool)

  /** A registered model, holding its engine session once the first call has created it. */
  class MlcModel {
    const modelId: string
    const modelPath: string
    var chatMod: Option<ChatSession>

    constructor (modelId: string, modelPath: string)
      ensures this.modelId == modelId && this.modelPath == modelPath
      ensures chatMod == None
    {
      this.modelId := modelId;
      this.modelPath := modelPath;
      chatMod := None;
    }

    /**
     * One call of `execute`. `mlcDir` is `<user dir>/mlc`. The session is
     * created on the first call and reused afterwards.
     */
    method Execute<V>(prompt: Prompt<V>, stream: bool, conversation: Option<seq<Exchange>>, mlcDir: string)
      returns (call: EngineCall<V>)
      modifies this
      ensures old(chatMod).Some? ==> chatMod == old(chatMod)
      ensures old(chatMod).None? ==> chatMod == Some(ChatSession(modelPath, mlcDir))
      ensures chatMod.Some? && call.session == chatMod.value
      ensures ChatConfigFor(prompt, conversation, call.config)
      ensures call.input == prompt.prompt && call.streaming == stream
    {
      var cfg := BuildChatConfig(prompt, conversation);
      if chatMod.None? {
        chatMod := Some(ChatSession(modelPath, mlcDir));
      }
      call := EngineCall(chatMod.value, cfg, prompt.prompt, stream);
    }
  }
}

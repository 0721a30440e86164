/**
 * The AI collaborator of the router (`AIService`) and its one implementation,
 * `MockAIService`, which echoes the trimmed prompt.
 */
module AIService {
  import opened Options
  import opened Text

  datatype AIRequest = AIRequest(roomId: string, userId: string, prompt: Option<string>)

  datatype AIReply = AIReply(text: string)

  const MOCK_PREFIX := "[mock-ai] "
  const MOCK_PING := "[mock-ai] Ping received."

  /** The prompt the mock answers: null reads as "", otherwise Java-trimmed. */
  function MockPrompt(request: AIRequest): (p: string)
    ensures request.prompt.None? ==> p == ""
    ensures request.prompt.Some? ==> p == JavaTrim(request.prompt.value)
  {
    if request.prompt.None? then "" else JavaTrim(request.prompt.value)
  }

  /** `MockAIService.reply`. */
  function MockReply(request: AIRequest): (reply: AIReply)
    ensures StartsWith(reply.text, MOCK_PREFIX)
  {
    var prompt := MockPrompt(request);
    if prompt == "" then AIReply(MOCK_PING) else AIReply(MOCK_PREFIX + prompt)
  }

  /** A non-empty trimmed prompt is echoed after the prefix, so the reply contains it and
      the prompt can be read back from the reply; an empty one gets the fixed ping text. */
  lemma MockReplyEchoesPrompt(request: AIRequest)
    ensures var p, text := MockPrompt(request), MockReply(request).text;
      && (p == "" ==> text == MOCK_PING)
      && (p != "" ==> text[|MOCK_PREFIX|..] == p && Contains(text, p))
  {
    var p := MockPrompt(request);
    if p != "" {
      PrefixThenText(MOCK_PREFIX, p);
    }
  }

  lemma PrefixThenText(prefix: string, p: string)
    ensures (prefix + p)[|prefix|..] == p && Contains(prefix + p, p)
  {
    assert OccursAt(prefix + p, p, |prefix|);
  }

  /** A null prompt and an empty one are answered alike, and so are prompts that differ only
      in leading or trailing characters up to U+0020; room and user are ignored. */
  lemma MockReplyIgnoresNullAndSpace(roomId: string, userId: string, prompt: string, roomId': string, userId': string)
    ensures MockReply(AIRequest(roomId, userId, None)) == MockReply(AIRequest(roomId', userId', Some("")))
    ensures MockReply(AIRequest(roomId, userId, Some(prompt)))
         == MockReply(AIRequest(roomId', userId', Some(JavaTrim(prompt))))
  {
    TrimIdempotent(JavaTrimmable, prompt);
    assert JavaTrim("") == "";
  }

  /** The ping text is itself the prefix followed by "Ping received.", so an empty prompt
      and the prompt "Ping received." get the same reply. */
  lemma MockPingIsAnEcho(roomId: string, userId: string)
    ensures MockReply(AIRequest(roomId, userId, Some("Ping received."))) == MockReply(AIRequest(roomId, userId, None))
  {
    var s := "Ping received.";
    assert !JavaTrimmable(s[0]) && !JavaTrimmable(s[|s| - 1]);
    assert TrimStart(JavaTrimmable, s) == s;
    assert TrimEnd(JavaTrimmable, s) == s;
  }
}

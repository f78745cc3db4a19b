/** The story-suggestion endpoint (`POST /api/deepseek`): the API-key guard,
    the choice of system prompt by genre, the request sent upstream, and how
    the upstream answer becomes the endpoint's response. */
module DeepseekRoute {
  import opened Text
  import opened Common

  const MissingKeyMessage: string := "DeepSeek API key not configured"
  const RequestFailedMessage: string := "API request failed"
  const SuggestionFallback: string := "Failed to generate suggestion"
  const LengthInstruction: string := " Keep your response to 200 characters or less."
  const ContinuePrefix: string := "Continue this spooky story: "
  const Model: string := "deepseek-chat"
  const MaxTokens: nat := 60

  /** The seven genres with a preset prompt. */
  datatype Genre = Psychological | Cosmic | Paranormal | UrbanLegends | Creature | Folk | Ghost

  /** The genre's key in the prompt table (the category id a story uses). */
  function GenreKey(g: Genre): string
  {
    match g
    case Psychological => "psychological"
    case Cosmic => "cosmic"
    case Paranormal => "paranormal"
    case UrbanLegends => "urban-legends"
    case Creature => "creature"
    case Folk => "folk"
    case Ghost => "ghost"
  }

  /** The prompt table lookup `genrePrompts[category]`, for the keys the
      table itself defines. */
  function GenreOf(category: string): Option<Genre>
  {
    if category == "psychological" then Some(Psychological)
    else if category == "cosmic" then Some(Cosmic)
    else if category == "paranormal" then Some(Paranormal)
    else if category == "urban-legends" then Some(UrbanLegends)
    else if category == "creature" then Some(Creature)
    else if category == "folk" then Some(Folk)
    else if category == "ghost" then Some(Ghost)
    else None
  }

  /** The lookup finds a genre exactly under that genre's key. */
  lemma GenreOfKey(category: string, g: Genre)
    ensures GenreOf(category) == Some(g) <==> category == GenreKey(g)
  {
  }

  function GenrePrompt(g: Genre): string
  {
    match g
    case Psychological => "You are a psychological horror story writing assistant. Focus on mental anguish and existential dread. Keep the atmosphere tense and unsettling."
    case Cosmic => "You are a cosmic horror story writing assistant. Emphasize humanity's insignificance against ancient, unknowable entities."
    case Paranormal => "You are a paranormal story writing assistant. Focus on supernatural occurrences and ghostly phenomena. Build suspense gradually."
    case UrbanLegends => "You are an urban legend story writing assistant. Focus on modern fears and plausible deniability. Include local folklore elements."
    case Creature => "You are a creature horror story writing assistant. Include detailed monster descriptions and survival elements."
    case Folk => "You are a folk horror story writing assistant. Incorporate rural traditions and pagan elements. Use earthy, archaic language."
    case Ghost => "You are a ghost story writing assistant. Focus on haunted locations and restless spirits. Build atmospheric tension."
  }

  const DefaultPrompt: string := "You are a horror story writing assistant. Continue the story in a spooky and suspenseful way, maintaining the dark atmosphere."

  /** `category && genrePrompts[category] ? genrePrompts[category] : default`. */
  function SystemPrompt(category: Option<string>): string
  {
    if category.Some? && category.value != [] && GenreOf(category.value).Some?
    then GenrePrompt(GenreOf(category.value).value)
    else DefaultPrompt
  }

  /** The preset of a genre for that genre's key, the default for anything
      else, an absent or empty category included. */
  lemma SystemPromptSpec(category: Option<string>)
    ensures forall g :: category == Some(GenreKey(g)) ==> SystemPrompt(category) == GenrePrompt(g)
    ensures (category.None? || GenreOf(category.value).None?) ==> SystemPrompt(category) == DefaultPrompt
  {
    forall g | category == Some(GenreKey(g))
      ensures SystemPrompt(category) == GenrePrompt(g)
    {
      GenreOfKey(category.value, g);
      assert category.value != [] by { assert |GenreKey(g)| > 0; }
    }
  }

  /** `temperature`, in tenths. */
  function TemperatureTenths(category: Option<string>): nat
  {
    if category == Some("cosmic") then 8 else 7
  }

  /** The body the client posted. */
  datatype RequestBody = RequestBody(prompt: Option<string>, category: Option<string>)

  /** A template literal prints an absent value as "undefined". */
  function Interpolated(v: Option<string>): string
  {
    if v.Some? then v.value else "undefined"
  }

  /** The chat-completion request sent upstream. */
  datatype ChatRequest = ChatRequest(authorization: string, model: string,
                                     systemContent: string, userContent: string,
                                     maxTokens: nat, temperatureTenths: nat)

  function ChatRequestFor(apiKey: string, body: RequestBody): ChatRequest
  {
    ChatRequest("Bearer " + apiKey, Model,
                SystemPrompt(body.category) + LengthInstruction,
                ContinuePrefix + Interpolated(body.prompt),
                MaxTokens, TemperatureTenths(body.category))
  }

  /** What the upstream `fetch` gives: a response (its `ok` flag, the error
      text of a failed one, the first choice's content of a good one), or a
      thrown error. */
  datatype Upstream =
    | Replied(ok: bool, errorMessage: Option<string>, content: string)
    | FetchFailed(fault: Fault)

  /** The endpoint's JSON body. */
  datatype Payload = ErrorPayload(error: string) | SuggestionPayload(suggestion: string)

  datatype Response = Response(status: nat, payload: Payload)

  /** The endpoint's answer and the upstream request it made, if any. */
  datatype Outcome = Outcome(response: Response, sent: Option<ChatRequest>)

  /** `POST(req)`, with the configured key, the parsed body (or the error
      parsing threw) and the upstream service given as parameters. */
  function Post(apiKey: Option<string>, body: Result<RequestBody, Fault>,
                upstream: ChatRequest -> Upstream): Outcome
  {
    if apiKey.None? || apiKey.value == [] then
      Outcome(Response(500, ErrorPayload(MissingKeyMessage)), None)
    else if body.Err? then
      Outcome(Response(500, ErrorPayload(ShownMessage(body.error, SuggestionFallback))), None)
    else
      var request := ChatRequestFor(apiKey.value, body.value);
      var answer := upstream(request);
      var thrown :=
        if answer.FetchFailed? then Some(answer.fault)
        else if !answer.ok then
          Some(ErrorWith(if answer.errorMessage.Some? && answer.errorMessage.value != []
                         then answer.errorMessage.value else RequestFailedMessage))
        else None;
      if thrown.Some? then
        Outcome(Response(500, ErrorPayload(ShownMessage(thrown.value, SuggestionFallback))), Some(request))
      else
        Outcome(Response(200, SuggestionPayload(Trim(answer.content))), Some(request))
  }

  /** With no key configured the endpoint answers 500 at once: the body is
      not read and nothing is sent upstream. */
  lemma NoKeyAnswersAtOnce(apiKey: Option<string>, body: Result<RequestBody, Fault>,
                           upstream: ChatRequest -> Upstream)
    requires apiKey.None? || apiKey == Some("")
    ensures Post(apiKey, body, upstream) == Outcome(Response(500, ErrorPayload(MissingKeyMessage)), None)
  {
  }

  /** The request sent upstream: the system message is the genre's prompt
      (or the default) followed by the length instruction, the user message
      asks to continue the prompt, at most 60 tokens, and the temperature is
      0.8 exactly for the cosmic genre and 0.7 otherwise. */
  lemma RequestSent(apiKey: string, body: RequestBody, upstream: ChatRequest -> Upstream)
    requires apiKey != []
    ensures var r := Post(Some(apiKey), Ok(body), upstream).sent;
            && r.Some?
            && r.value.authorization == "Bearer " + apiKey
            && r.value.model == Model
            && r.value.systemContent == SystemPrompt(body.category) + LengthInstruction
            && r.value.userContent == ContinuePrefix + Interpolated(body.prompt)
            && r.value.maxTokens == 60
            && (r.value.temperatureTenths == 8 <==> body.category == Some("cosmic"))
            && (r.value.temperatureTenths == 8 || r.value.temperatureTenths == 7)
            && (body.category == Some(GenreKey(Cosmic)) ==>
                  r.value.systemContent == GenrePrompt(Cosmic) + LengthInstruction)
  {
    var r := ChatRequestFor(apiKey, body);
    assert Post(Some(apiKey), Ok(body), upstream).sent == Some(r);
    if body.category == Some(GenreKey(Cosmic)) {
      SystemPromptSpec(body.category);
    }
  }

  /** How the upstream answer is classified: a good reply gives status 200
      and its trimmed content; a failed reply gives 500 and the upstream's
      own message or the generic one; a thrown error gives 500 and its
      message when it is an `Error`. */
  lemma ResponseShape(apiKey: string, body: RequestBody, upstream: ChatRequest -> Upstream)
    requires apiKey != []
    ensures var answer := upstream(ChatRequestFor(apiKey, body));
            var response := Post(Some(apiKey), Ok(body), upstream).response;
            && (answer.Replied? && answer.ok
                ==> response == Response(200, SuggestionPayload(Trim(answer.content))))
            && (answer.Replied? && !answer.ok && answer.errorMessage.Some? && answer.errorMessage.value != []
                ==> response == Response(500, ErrorPayload(answer.errorMessage.value)))
            && (answer.Replied? && !answer.ok && (answer.errorMessage.None? || answer.errorMessage.value == [])
                ==> response == Response(500, ErrorPayload(RequestFailedMessage)))
            && (answer.FetchFailed?
                ==> response == Response(500, ErrorPayload(ShownMessage(answer.fault, SuggestionFallback))))
  {
  }

  /** Every answer is either status 200 with a suggestion or status 500 with
      an error. */
  lemma StatusMatchesPayload(apiKey: Option<string>, body: Result<RequestBody, Fault>,
                             upstream: ChatRequest -> Upstream)
    ensures var r := Post(apiKey, body, upstream).response;
            (r.status == 200 && r.payload.SuggestionPayload?) || (r.status == 500 && r.payload.ErrorPayload?)
  {
  }

  /** The endpoint answers 200 exactly when a key is configured, the body
      parsed and the upstream replied `ok`; it sends a request upstream
      exactly when the key and the body are there, and then the one request
      built from them. */
  lemma PostSucceedsExactly(apiKey: Option<string>, body: Result<RequestBody, Fault>,
                            upstream: ChatRequest -> Upstream)
    ensures var o := Post(apiKey, body, upstream);
            var ready := apiKey.Some? && apiKey.value != [] && body.Ok?;
            && (o.sent.Some? <==> ready)
            && (ready ==> o.sent == Some(ChatRequestFor(apiKey.value, body.value)))
            && (o.response.status == 200
                <==> ready && upstream(ChatRequestFor(apiKey.value, body.value)).Replied?
                           && upstream(ChatRequestFor(apiKey.value, body.value)).ok)
  {
    if apiKey.Some? && apiKey.value != [] && body.Ok? {
      ResponseShape(apiKey.value, body.value, upstream);
    }
  }
}

/** The `/chat` endpoint of llmapi.py and the in-memory store of conversation
    contexts it keeps per user.

    Flask's request parsing and `jsonify` are replaced by typed request and
    response values, and the call to Ollama by an `Upstream` value that stands
    for what that call produced. The handler is given twice: `Handle` is the
    decision it makes, as a function of the store and the inputs (`Normalize`
    applies the request's defaults, `Respond` does the rest), and
    `ChatService.Chat` updates the store in place as the source does. The
    method is proved to agree with `Handle`, and the properties are proved
    about `Normalize` and `Respond`. */
module Chat {
  import opened Wrappers
  import opened Text
  import Think

  /** Ollama's `context`: the token numbers that encode a conversation. */
  type Context = seq<int>

  /** Whether a request that does not say uses the stored context. */
  const UseContextDefault: bool := true
  const OllamaServer: string := "http://localhost:11434"
  const OllamaModel: string := "deepseek-r1:1.5b"
  const ChatUrl: string := OllamaServer + "/api/chat"
  /** Seconds `requests.post` waits for Ollama. */
  const UpstreamTimeout: nat := 60
  const DefaultUserId: string := "default"

  const MessageRequired: string := "Message is required"
  const UpstreamFailed: string := "Failed to get response from Ollama"
  const TimedOutMessage: string := "Request timed out. Please try again later."

  /** The JSON body of a `/chat` request; `None` is a key that is absent. */
  datatype ChatRequest = ChatRequest(userId: Option<string>, message: Option<string>, useContext: Option<bool>)

  datatype ChatMessage = ChatMessage(role: string, content: string)

  /** What the handler sends to Ollama. */
  datatype OllamaRequest = OllamaRequest(
    url: string, model: string, messages: seq<ChatMessage>, stream: bool, context: Context, timeout: nat)

  /** The fields of Ollama's JSON reply that the handler reads. */
  datatype ReplyJson = ReplyJson(response: Option<string>, context: Option<Context>)

  /** What the call to Ollama produced. */
  datatype Upstream =
    | TimedOut                                   // requests.Timeout
    | Raised(error: string)                      // any other exception while calling
    | Responded(status: int, text: string, json: Result<ReplyJson, string>)
      // an HTTP reply; `json` is what decoding its body gave (an error's text on failure)

  datatype Body =
    | Error(error: string)
    | OllamaError(error: string, status: int, response: string)
    | Answer(content: string, context: Context)

  datatype Response = Response(status: int, body: Body)

  /** A response, the request sent to Ollama (`None`: no call was made), and
      the store afterwards. */
  datatype Outcome = Outcome(response: Response, sent: Option<OllamaRequest>, store: map<string, Context>)

  /** A request after the first lines of `chat()`: the store key (`user_id`,
      "default" when absent), the message stripped of surrounding whitespace
      ("" when absent) and whether context is used (the global default when
      absent). */
  datatype Input = Input(key: string, message: string, useContext: bool)

  function Normalize(req: ChatRequest): (i: Input)
    ensures req.userId.None? ==> i.key == "default"
    ensures req.useContext.None? ==> i.useContext
    ensures Stripped(i.message) && |i.message| <= |req.message.GetOr("")|
  {
    Input(req.userId.GetOr(DefaultUserId), Strip(req.message.GetOr("")), req.useContext.GetOr(UseContextDefault))
  }

  /** The context sent to Ollama: the user's stored one when context is used
      (empty when none is stored), otherwise empty. */
  function ContextFor(store: map<string, Context>, input: Input): (c: Context)
    ensures !input.useContext ==> c == []
    ensures input.key !in store ==> c == []
    ensures input.useContext && input.key in store ==> c == store[input.key]
  {
    if input.useContext && input.key in store then store[input.key] else []
  }

  /** The request `requests.post` sends: the chat endpoint of the local
      server, the fixed model, the message as the one user message, no
      streaming, the chosen context and a 60 second timeout. */
  function RequestFor(store: map<string, Context>, input: Input): (r: OllamaRequest)
    ensures r.url == "http://localhost:11434/api/chat" && r.model == "deepseek-r1:1.5b"
    ensures r.messages == [ChatMessage("user", input.message)] && !r.stream && r.timeout == 60
    ensures r.context == ContextFor(store, input)
  {
    OllamaRequest(ChatUrl, OllamaModel, [ChatMessage("user", input.message)], false, ContextFor(store, input), UpstreamTimeout)
  }

  /** What `chat()` does with a normalized request. Every response is a 200,
      400 or 500; Ollama is called exactly when the message is not empty; the
      store changes only on a 200. */
  function Respond(store: map<string, Context>, input: Input, upstream: Upstream): (o: Outcome)
    ensures o.response.status == 200 || o.response.status == 400 || o.response.status == 500
    ensures o.sent.Some? <==> input.message != []
    ensures o.response.status != 200 ==> o.store == store
    ensures o.store.Keys <= store.Keys + {input.key}
  {
    if input.message == [] then
      Outcome(Response(400, Error(MessageRequired)), None, store)
    else
      var sent := Some(RequestFor(store, input));
      match upstream
      case TimedOut => Outcome(Response(500, Error(TimedOutMessage)), sent, store)
      case Raised(e) => Outcome(Response(500, Error(e)), sent, store)
      case Responded(status, text, json) =>
        if status != 200 then
          Outcome(Response(500, OllamaError(UpstreamFailed, status, text)), sent, store)
        else
          match json
          case Failure(e) => Outcome(Response(500, Error(e)), sent, store)
          case Success(reply) =>
            var newContext := reply.context.GetOr([]);
            var content := Think.CleanResponse(reply.response.GetOr(""));
            if input.useContext then
              Outcome(Response(200, Answer(content, newContext)), sent, store[input.key := newContext])
            else
              Outcome(Response(200, Answer(content, [])), sent, store)
  }

  /** The decision `chat()` makes. Only the entry of the request's user, or
      of "default" when it names none, can be added or replaced. */
  function Handle(store: map<string, Context>, req: ChatRequest, upstream: Upstream): (o: Outcome)
    ensures o.response.status != 200 ==> o.store == store
    ensures o.store.Keys <= store.Keys + {req.userId.GetOr("default")}
  {
    Respond(store, Normalize(req), upstream)
  }

  /** The service's state: `user_contexts`, the module-level dictionary. */
  class ChatService {
    var userContexts: map<string, Context>

    constructor ()
      ensures userContexts == map[]
    {
      userContexts := map[];
    }

    /** `chat()`: answers one request and, when it used context and Ollama
        answered, replaces the user's stored context by Ollama's. */
    method Chat(req: ChatRequest, upstream: Upstream) returns (resp: Response, sent: Option<OllamaRequest>)
      modifies this
      ensures Outcome(resp, sent, userContexts) == Handle(old(userContexts), req, upstream)
      ensures resp.status != 200 ==> userContexts == old(userContexts)
      ensures forall k :: k != Normalize(req).key ==>
        (k in userContexts <==> k in old(userContexts)) && (k in userContexts ==> userContexts[k] == old(userContexts)[k])
    {
      var userId := req.userId.GetOr(DefaultUserId);
      var userInput := Strip(req.message.GetOr(""));
      var useContext := req.useContext.GetOr(UseContextDefault);

      if userInput == [] {
        return Response(400, Error(MessageRequired)), None;
      }

      var context: Context := [];
      if useContext && userId in userContexts {
        context := userContexts[userId];
      }
      sent := Some(OllamaRequest(ChatUrl, OllamaModel, [ChatMessage("user", userInput)], false, context, UpstreamTimeout));

      match upstream {
        case TimedOut =>
          resp := Response(500, Error(TimedOutMessage));
        case Raised(e) =>
          resp := Response(500, Error(e));
        case Responded(status, text, json) =>
          if status != 200 {
            resp := Response(500, OllamaError(UpstreamFailed, status, text));
            return;
          }
          match json {
            case Failure(e) =>
              resp := Response(500, Error(e));
            case Success(reply) =>
              var aiResponse := reply.response.GetOr("");
              var newContext := reply.context.GetOr([]);
              var cleaned := Think.CleanResponse(aiResponse);
              if useContext {
                userContexts := userContexts[userId := newContext];
              }
              resp := Response(200, Answer(cleaned, if useContext then newContext else []));
          }
      }
    }
  }

  // ---------------------------------------------------------------------------
  // Properties of the handler

  /** The defaults of a request: no `user_id` is the key "default", no
      `use_context` means context is used, and the message is empty after
      stripping exactly when it is absent or only whitespace. */
  lemma NormalizeDefaults(req: ChatRequest)
    ensures req.userId.None? ==> Normalize(req).key == "default"
    ensures req.userId.Some? ==> Normalize(req).key == req.userId.value
    ensures req.useContext.None? ==> Normalize(req).useContext
    ensures req.useContext.Some? ==> Normalize(req).useContext == req.useContext.value
    ensures Normalize(req).message == [] <==> req.message.None? || AllSpace(req.message.value)
    ensures Stripped(Normalize(req).message) && IsSubseq(Normalize(req).message, req.message.GetOr(""))
  {
    StripEmptyIff(req.message.GetOr(""));
    StripSubseq(req.message.GetOr(""));
  }

  /** The request is refused with 400 exactly when the message is empty; then
      Ollama is not called and the store is unchanged. */
  lemma EmptyMessageRejected(store: map<string, Context>, input: Input, upstream: Upstream)
    ensures var o := Respond(store, input, upstream);
      (o.response.status == 400 <==> input.message == [])
      && (o.response.status == 400 ==> o.response.body == Error(MessageRequired) && o.sent.None? && o.store == store)
  {
  }

  /** The same for a raw request: 400, no call and no change exactly when the
      message is absent or only whitespace. */
  lemma BlankMessageRejected(store: map<string, Context>, req: ChatRequest, upstream: Upstream)
    ensures var o := Handle(store, req, upstream);
      (o.response.status == 400 <==> req.message.None? || AllSpace(req.message.value))
      && (o.response.status == 400 ==> o.response.body == Error(MessageRequired) && o.sent.None? && o.store == store)
  {
    NormalizeDefaults(req);
    EmptyMessageRejected(store, Normalize(req), upstream);
  }

  /** Every request with a message calls Ollama once, whatever it answers:
      the stripped message as the one user message, the fixed model at the
      local server's chat endpoint, streaming off and a 60 second timeout. */
  lemma MessageForwarded(store: map<string, Context>, input: Input, upstream: Upstream)
    requires input.message != []
    ensures Respond(store, input, upstream).sent
      == Some(OllamaRequest("http://localhost:11434/api/chat", "deepseek-r1:1.5b",
                            [ChatMessage("user", input.message)], false, ContextFor(store, input), 60))
  {
  }

  /** The context sent: with context off always `[]`; with it on, what the
      store holds under the user's key, `[]` when nothing is stored. */
  lemma ContextSent(store: map<string, Context>, input: Input, upstream: Upstream)
    requires input.message != []
    ensures var o := Respond(store, input, upstream);
      o.sent.Some?
      && (!input.useContext ==> o.sent.value.context == [])
      && (input.useContext && input.key in store ==> o.sent.value.context == store[input.key])
      && (input.key !in store ==> o.sent.value.context == [])
  {
  }

  /** Without context the store is never changed and the reply's context is `[]`. */
  lemma NoContextNoChange(store: map<string, Context>, input: Input, upstream: Upstream)
    requires !input.useContext
    ensures var o := Respond(store, input, upstream);
      o.store == store && (o.response.body.Answer? ==> o.response.body.context == [])
  {
  }

  /** Every failure of the call to Ollama gives 500 and leaves the store as it
      was: a timeout says to try again later, a non-200 status is echoed with
      the reply's text, a raised error or undecodable body gives its message. */
  lemma UpstreamFailureKeepsStore(store: map<string, Context>, input: Input, upstream: Upstream)
    requires input.message != []
    requires !(upstream.Responded? && upstream.status == 200 && upstream.json.Success?)
    ensures var o := Respond(store, input, upstream);
      o.store == store && o.response.status == 500
      && (upstream.TimedOut? ==> o.response.body == Error("Request timed out. Please try again later."))
      && (upstream.Raised? ==> o.response.body == Error(upstream.error))
      && (upstream.Responded? && upstream.status != 200 ==>
            o.response.body == OllamaError("Failed to get response from Ollama", upstream.status, upstream.text))
      && (upstream.Responded? && upstream.status == 200 ==> o.response.body == Error(upstream.json.error))
  {
  }

  /** A 200 reply answers with the cleaned reply text, and with Ollama's
      context (`[]` if it sent none) when context is in use. */
  lemma ReplyAnswer(store: map<string, Context>, input: Input, reply: ReplyJson, text: string)
    requires input.message != []
    ensures Respond(store, input, Responded(200, text, Success(reply))).response
      == Response(200, Answer(Think.CleanResponse(reply.response.GetOr("")), if input.useContext then reply.context.GetOr([]) else []))
  {
  }

  /** A 200 reply with context in use stores Ollama's context under the
      user's key, adding the key if it was new. */
  lemma ReplyStoresContext(store: map<string, Context>, input: Input, reply: ReplyJson, text: string)
    requires input.message != [] && input.useContext
    ensures var o := Respond(store, input, Responded(200, text, Success(reply)));
      o.store == store[input.key := reply.context.GetOr([])] && o.store.Keys == store.Keys + {input.key}
  {
    assert store[input.key := reply.context.GetOr([])].Keys == store.Keys + {input.key};
  }

  /** Only the user's own entry can change: every other key is present
      afterwards exactly when it was before, with the same context, and no
      key is ever removed. */
  lemma OnlyOwnEntryChanges(store: map<string, Context>, input: Input, upstream: Upstream)
    ensures var o := Respond(store, input, upstream);
      store.Keys <= o.store.Keys
      && (forall k :: k != input.key ==> (k in o.store <==> k in store))
      && (forall k :: k in store && k != input.key ==> o.store[k] == store[k])
  {
  }

  /** Two calls by the same user with context on: the second sends Ollama
      exactly the context the first one's 200 reply carried. */
  lemma ContextCarriesOver(store: map<string, Context>, first: Input, reply: ReplyJson, text: string,
                           second: Input, upstream: Upstream)
    requires first.message != [] && first.useContext
    requires second.message != [] && second.useContext && second.key == first.key
    ensures var o1 := Respond(store, first, Responded(200, text, Success(reply)));
      var o2 := Respond(o1.store, second, upstream);
      o2.sent.Some? && o2.sent.value.context == o1.response.body.context
  {
    var o1 := Respond(store, first, Responded(200, text, Success(reply)));
    var ctx := reply.context.GetOr([]);
    assert o1.store == store[first.key := ctx] && o1.response.body.context == ctx by {
      ReplyAnswer(store, first, reply, text);
      ReplyStoresContext(store, first, reply, text);
    }
    assert ContextFor(o1.store, second) == ctx;
    MessageForwarded(o1.store, second, upstream);
  }
}

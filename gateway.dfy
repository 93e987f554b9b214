/**
  `OllamaClient`: the two calls the chat front end makes to an Ollama
  server, listing the installed models and sending one chat request.

  The HTTP exchange itself is not modelled: each call takes the server's
  reply as a parameter, already decoded as far as the code looks into it,
  and `chat` returns the URL it would have posted to and the payload.
 */
module Gateway {
  import opened Wrappers

  /** Where the client talks to the server unless told otherwise. */
  const DefaultBaseUrl: string := "http://localhost:11434/api"

  datatype Role = System | User | Assistant

  /** One chat message, `{"role": ..., "content": ...}`. */
  datatype Message = Message(role: Role, content: string)

  /** The JSON body of a chat request, `{"model", "messages", "stream"}`. */
  datatype ChatPayload = ChatPayload(model: string, messages: seq<Message>, stream: bool)

  /** One entry of the `models` list of `/tags`; `name` is None when the key is missing. */
  datatype ModelRecord = ModelRecord(name: Option<string>)

  /**
    The body of a `/tags` reply. `Unreadable` is a body from which the code
    gets no names, so that the result is `[]`: not JSON or not an object
    (the code raises), or a `models` value that is not a list of objects
    (an empty dict or string iterates to nothing, and anything else makes
    the comprehension raise). `Listing(None)` is an object without a
    `models` key.
   */
  datatype TagsBody = Unreadable | Listing(models: Option<seq<ModelRecord>>)

  /** What `requests.get(.../tags)` gives: no answer at all, or a status and a body. */
  datatype TagsReply = TagsUnreachable | TagsResponse(status: int, body: TagsBody)

  /**
    What `requests.post(.../chat)` gives. `content` is `message.content` of
    the JSON body, None when the body is not JSON or lacks that field.
   */
  datatype ChatReply = ChatUnreachable | ChatResponse(status: int, content: Option<string>)

  /** Python truthiness of an optional string: present and non-empty. */
  predicate Truthy(s: Option<string>)
  {
    s.Some? && s.value != []
  }

  /** The messages an optional system prompt puts before the conversation. */
  function SystemPrefix(systemPrompt: Option<string>): (r: seq<Message>)
    ensures Truthy(systemPrompt) <==> |r| == 1
    ensures !Truthy(systemPrompt) <==> r == []
    ensures forall k :: 0 <= k < |r| ==> r[k] == Message(System, systemPrompt.value)
  {
    if Truthy(systemPrompt) then [Message(System, systemPrompt.value)] else []
  }

  /**
    `[model["name"] for model in models]`: the names in order, or None when
    a record has no name, where the comprehension raises KeyError.
   */
  function NamesOf(models: seq<ModelRecord>): (r: Option<seq<string>>)
    ensures r.Some? <==> forall k :: 0 <= k < |models| ==> models[k].name.Some?
    ensures r.Some? ==> |r.value| == |models|
    ensures r.Some? ==> forall k :: 0 <= k < |models| ==> r.value[k] == models[k].name.value
  {
    if models == [] then Some([])
    else match (models[0].name, NamesOf(models[1..]))
      case (Some(n), Some(rest)) => Some([n] + rest)
      case _ => None
  }

  /**
    The model records of a `/tags` reply, when it is a 200 whose body has a
    `models` list; None on every path where `get_available_models` gives up
    before the list comprehension.
   */
  function ListedModels(reply: TagsReply): (r: Option<seq<ModelRecord>>)
    ensures r.Some? <==> reply.TagsResponse? && reply.status == 200 && reply.body.Listing? && reply.body.models.Some?
    ensures r.Some? ==> r.value == reply.body.models.value
  {
    match reply
    case TagsUnreachable => None
    case TagsResponse(status, body) =>
      if status != 200 then None
      else match body
        case Unreadable => None
        case Listing(models) => models
  }

  /** `raise_for_status()` raises for client and server errors only. */
  predicate IsHttpError(status: int)
  {
    400 <= status < 600
  }

  /**
    What `chat` returns for a reply: the assistant's text, or None when the
    request failed, the status was an HTTP error or the body lacked the text.
   */
  function ChatOutcome(reply: ChatReply): (r: Option<string>)
    ensures r.Some? <==> reply.ChatResponse? && !IsHttpError(reply.status) && reply.content.Some?
    ensures r.Some? ==> r.value == reply.content.value
  {
    match reply
    case ChatUnreachable => None
    case ChatResponse(status, content) => if IsHttpError(status) then None else content
  }

  /** A Python list of messages, which `chat` changes in place. */
  class MessageList {
    var items: seq<Message>

    /** `list(items)`: a new list holding `items`. */
    constructor (items: seq<Message>)
      ensures this.items == items
    {
      this.items := items;
    }

    /** `list.insert(0, m)` */
    method InsertFirst(m: Message)
      modifies this
      ensures items == [m] + old(items)
    {
      items := [m] + items;
    }
  }

  class OllamaClient {
    const baseUrl: string

    constructor (baseUrl: string)
      ensures this.baseUrl == baseUrl
    {
      this.baseUrl := baseUrl;
    }

    /**
      `get_available_models`: the names the server lists, in its order, and
      the empty list whenever anything goes wrong: no answer, a status other
      than 200, an unreadable body or a record without a name.
     */
    function AvailableModels(reply: TagsReply): (names: seq<string>)
      ensures ListedModels(reply).None? ==> names == []
      ensures ListedModels(reply).Some? ==>
        var models := ListedModels(reply).value;
        && ((exists k :: 0 <= k < |models| && models[k].name.None?) ==> names == [])
        && ((forall k :: 0 <= k < |models| ==> models[k].name.Some?) ==>
              |names| == |models| && forall k :: 0 <= k < |models| ==> names[k] == models[k].name.value)
    {
      match ListedModels(reply)
      case None => []
      case Some(models) =>
        match NamesOf(models)
        case None => []
        case Some(names) => names
    }

    /**
      `chat`: a truthy system prompt is inserted at the head of the caller's
      list, which is then sent, unstreamed, to the chat endpoint; the result
      is what ChatOutcome makes of the reply.
     */
    method Chat(model: string, messages: MessageList, systemPrompt: Option<string>, reply: ChatReply)
      returns (url: string, payload: ChatPayload, response: Option<string>)
      modifies messages
      ensures url == baseUrl + "/chat"
      ensures messages.items == SystemPrefix(systemPrompt) + old(messages.items)
      ensures payload == ChatPayload(model, messages.items, false)
      ensures response == ChatOutcome(reply)
    {
      url := baseUrl + "/chat";
      if Truthy(systemPrompt) {
        messages.InsertFirst(Message(System, systemPrompt.value));
      } else {
        assert SystemPrefix(systemPrompt) + messages.items == messages.items;
      }
      payload := ChatPayload(model, messages.items, false);
      response := ChatOutcome(reply);
    }
  }
}

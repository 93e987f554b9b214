/**
  The chat page's state across reruns: the conversation history and the
  client, the model choices offered in the sidebar, the Clear Chat button
  and one chat turn.
 */
module Session {
  import opened Wrappers
  import opened Gateway

  /** The model offered when the server reports none. */
  const FallbackModel: string := "llama2"

  /** The options of the model selector: the installed models, or the fallback when there are none. */
  function ModelOptions(available: seq<string>): (options: seq<string>)
    ensures options != []
    ensures available != [] ==> options == available
    ensures available == [] ==> options == [FallbackModel]
  {
    if available == [] then [FallbackModel] else available
  }

  /**
    Every model the selector offers is one the server listed by name in a
    200 reply, or the fallback, and the fallback is all there is whenever
    the listing failed.
   */
  lemma OfferedModels(client: OllamaClient, reply: TagsReply)
    ensures forall m :: m in ModelOptions(client.AvailableModels(reply)) ==>
      m == FallbackModel || (ListedModels(reply).Some? && exists r :: r in ListedModels(reply).value && r.name == Some(m))
    ensures ListedModels(reply).None? ==> ModelOptions(client.AvailableModels(reply)) == [FallbackModel]
  {
  }

  /**
    A history the page can hold: user messages, each followed by at most
    one assistant answer, none of them empty and none a system message.
   */
  predicate WellFormedHistory(h: seq<Message>)
  {
    && (forall k :: 0 <= k < |h| ==>
          h[k].role != System && h[k].content != [] && (h[k].role == Assistant ==> k > 0))
    && (forall k :: 0 < k < |h| ==> h[k].role == Assistant ==> h[k - 1].role == User)
  }

  /** The history after one turn: the user's message, then the answer if it is truthy. */
  function AfterTurn(h: seq<Message>, prompt: string, response: Option<string>): (r: seq<Message>)
    ensures |r| == |h| + (if Truthy(response) then 2 else 1)
    ensures r[..|h|] == h && r[|h|] == Message(User, prompt)
    ensures Truthy(response) ==> r[|h| + 1] == Message(Assistant, response.value)
  {
    h + [Message(User, prompt)] + (if Truthy(response) then [Message(Assistant, response.value)] else [])
  }

  /** A turn with a non-empty prompt keeps the history well formed. */
  lemma AfterTurnWellFormed(h: seq<Message>, prompt: string, response: Option<string>)
    requires WellFormedHistory(h) && prompt != []
    ensures WellFormedHistory(AfterTurn(h, prompt, response))
  {
  }

  /**
    What reaches the server: the system prompt, when truthy, is the one
    system message and comes first; every other message is the history's.
   */
  lemma PayloadRoles(h: seq<Message>, systemPrompt: Option<string>)
    requires WellFormedHistory(h)
    ensures forall k :: 0 <= k < |SystemPrefix(systemPrompt) + h| ==>
      ((SystemPrefix(systemPrompt) + h)[k].role == System <==> k == 0 && Truthy(systemPrompt))
    ensures SystemPrefix(systemPrompt) + h == (if Truthy(systemPrompt) then [Message(System, systemPrompt.value)] + h else h)
  {
  }

  /** `st.session_state`: the history and the client. */
  class ChatSession {
    var messages: seq<Message>
    const client: OllamaClient

    ghost predicate Valid()
      reads this
    {
      WellFormedHistory(messages)
    }

    /** `initialize_session_state` on the first run: no history, a client for the default server. */
    constructor ()
      ensures messages == [] && client.baseUrl == DefaultBaseUrl
      ensures Valid()
    {
      messages := [];
      client := new OllamaClient(DefaultBaseUrl);
    }

    /** The Clear Chat button. */
    method ClearChat()
      modifies this
      ensures messages == []
      ensures Valid()
    {
      messages := [];
    }

    /**
      One pass through the chat input. Nothing happens unless the prompt is
      truthy; then the user's message joins the history, a copy of the
      history goes to `chat`, and a truthy answer joins the history too.
      `sent` is the request `chat` made; the system prompt it carries goes
      into the copy and never into the history.
     */
    method ChatTurn(prompt: Option<string>, model: string, systemPrompt: Option<string>, reply: ChatReply)
      returns (sent: Option<ChatPayload>, response: Option<string>)
      requires Valid()
      modifies this
      ensures Valid()
      ensures !Truthy(prompt) ==> messages == old(messages) && sent == None && response == None
      ensures Truthy(prompt) ==>
        && sent == Some(ChatPayload(model, SystemPrefix(systemPrompt) + old(messages) + [Message(User, prompt.value)], false))
        && response == ChatOutcome(reply)
        && messages == AfterTurn(old(messages), prompt.value, response)
    {
      if Truthy(prompt) {
        var before := messages;
        messages := messages + [Message(User, prompt.value)];
        var copy := new MessageList(messages);
        var url, payload;
        url, payload, response := client.Chat(model, copy, systemPrompt, reply);
        sent := Some(payload);
        assert SystemPrefix(systemPrompt) + messages == SystemPrefix(systemPrompt) + before + [Message(User, prompt.value)];
        if Truthy(response) {
          messages := messages + [Message(Assistant, response.value)];
        }
        assert messages == AfterTurn(before, prompt.value, response);
        AfterTurnWellFormed(before, prompt.value, response);
      } else {
        sent, response := None, None;
      }
    }
  }
}

/** `build_messages`: turns the conversation history and the web-search
    context into the role-tagged message list sent to the language model. */
module PromptBuilder {

  /** A `{"role": ..., "content": ...}` dictionary: a turn of the history or
      a message of the prompt. */
  datatype Message = Message(role: string, content: string)

  /** The fixed instruction every prompt opens with. */
  const SystemPrompt: string :=
    "Sos un chatbot que ayuda al usuario respondiendo con datos actualizados "
    + "extraídos desde internet. Citá siempre tus fuentes al final."

  /** The label put in front of the web-search context. */
  const ContextLabel: string := "Contexto de búsqueda:\n"

  /** The roles of history turns that reach the prompt. */
  predicate IsConversational(role: string) {
    role == "user" || role == "assistant"
  }

  /** The history turns the prompt forwards, in history order: the user and
      assistant turns; a turn with any other role is dropped. */
  function Conversation(history: seq<Message>): (r: seq<Message>)
    ensures forall k :: 0 <= k < |r| ==> IsConversational(r[k].role)
    ensures |r| <= |history|
  {
    if history == [] then []
    else
      var last := history[|history| - 1];
      Conversation(history[..|history| - 1]) + (if IsConversational(last.role) then [last] else [])
  }

  /** The kept turns of a concatenation are the kept turns of each part, so
      the filter keeps history order and treats every turn on its own. */
  lemma {:induction false} ConversationConcat(a: seq<Message>, b: seq<Message>)
    ensures Conversation(a + b) == Conversation(a) + Conversation(b)
    decreases |b|
  {
    if b == [] {
      assert a + b == a;
    } else {
      var b' := b[..|b| - 1];
      assert (a + b)[..|a + b| - 1] == a + b';
      ConversationConcat(a, b');
    }
  }

  /** A history made only of user and assistant turns is forwarded whole. */
  lemma {:induction false} ConversationKeepsConversational(history: seq<Message>)
    requires forall k :: 0 <= k < |history| ==> IsConversational(history[k].role)
    ensures Conversation(history) == history
    decreases |history|
  {
    if history != [] {
      var init := history[..|history| - 1];
      ConversationKeepsConversational(init);
      assert init + [history[|history| - 1]] == history;
    }
  }

  /** A turn with any other role contributes nothing. */
  lemma DropsOtherRoles(history: seq<Message>, turn: Message)
    requires !IsConversational(turn.role)
    ensures Conversation(history + [turn]) == Conversation(history)
  {
    assert (history + [turn])[..|history|] == history;
  }

  /** `build_messages`: the system instruction, then every user and assistant
      turn of `history` in order, then, when `webContext` is not empty, one
      user message carrying the labelled context. */
  method BuildMessages(history: seq<Message>, webContext: string) returns (messages: seq<Message>)
    ensures |messages| == 1 + |Conversation(history)| + (if webContext != "" then 1 else 0)
    ensures messages[0] == Message("system", SystemPrompt)
    ensures messages[1..1 + |Conversation(history)|] == Conversation(history)
    ensures webContext != "" ==> messages[|messages| - 1] == Message("user", ContextLabel + webContext)
    ensures forall k :: 0 < k < |messages| ==> messages[k].role != "system"
  {
    messages := [Message("system", SystemPrompt)];
    for i := 0 to |history|
      invariant messages == [Message("system", SystemPrompt)] + Conversation(history[..i])
    {
      var turn := history[i];
      assert history[..i + 1][..i] == history[..i];
      if turn.role == "user" {
        messages := messages + [Message("user", turn.content)];
      } else if turn.role == "assistant" {
        messages := messages + [Message("assistant", turn.content)];
      }
    }
    assert history[..|history|] == history;
    if webContext != "" {
      messages := messages + [Message("user", ContextLabel + webContext)];
    }
  }
}

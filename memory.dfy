/** `MemoryManager`: the conversation history of one chat session, an ordered
    list of turns that only grows by appending and is emptied by `reset`. */
module Memory {
  import opened PromptBuilder

  class MemoryManager {
    /** `_history`, in insertion order. */
    var history: seq<Message>

    /** Every stored turn is a user or an assistant turn. The class's methods
        keep this, but `history` is a public field that outside code could
        assign, so callers that rely on it require it. */
    ghost predicate Valid()
      reads this
    {
      forall k :: 0 <= k < |history| ==> IsConversational(history[k].role)
    }

    /** `__init__`: a fresh manager holds no turns. */
    constructor ()
      ensures Valid() && history == []
    {
      history := [];
    }

    /** `add_user_message`: appends `{role: user, content}`; earlier turns are
        untouched. */
    method AddUserMessage(content: string)
      requires Valid()
      modifies this
      ensures Valid()
      ensures history == old(history) + [Message("user", content)]
    {
      history := history + [Message("user", content)];
    }

    /** `add_assistant_message`: appends `{role: assistant, content}`; earlier
        turns are untouched. */
    method AddAssistantMessage(content: string)
      requires Valid()
      modifies this
      ensures Valid()
      ensures history == old(history) + [Message("assistant", content)]
    {
      history := history + [Message("assistant", content)];
    }

    /** `get_history`: a copy of the list of turns. Appending to or removing
        from the copy leaves the manager's list alone; the method has no
        `modifies` clause, so the manager is unchanged. */
    method GetHistory() returns (h: seq<Message>)
      ensures h == history
    {
      h := history;
    }

    /** `reset`: empties the history, whatever it held. */
    method Reset()
      modifies this
      ensures Valid() && history == []
    {
      history := [];
    }
  }

  /** A user turn then an assistant turn come back in that order, two long. */
  method AddUserThenAssistant(user: string, assistant: string) returns (h: seq<Message>)
    ensures h == [Message("user", user), Message("assistant", assistant)]
  {
    var memory := new MemoryManager();
    memory.AddUserMessage(user);
    memory.AddAssistantMessage(assistant);
    h := memory.GetHistory();
  }

  /** Resetting after any mix of user and assistant turns leaves no turns.
      Each pair is `(true, c)` for `add_user_message(c)` and `(false, c)` for
      `add_assistant_message(c)`. */
  method AddThenReset(turns: seq<(bool, string)>) returns (h: seq<Message>)
    ensures h == []
  {
    var memory := new MemoryManager();
    for i := 0 to |turns|
      invariant memory.Valid()
    {
      if turns[i].0 {
        memory.AddUserMessage(turns[i].1);
      } else {
        memory.AddAssistantMessage(turns[i].1);
      }
    }
    memory.Reset();
    h := memory.GetHistory();
  }

  /** The prompt built from a manager's history forwards every stored turn:
      nothing the manager holds is dropped as an unknown role. */
  method PromptFromMemory(memory: MemoryManager, webContext: string) returns (messages: seq<Message>)
    requires memory.Valid()
    ensures |messages| == 1 + |memory.history| + (if webContext != "" then 1 else 0)
    ensures messages[1..1 + |memory.history|] == memory.history
  {
    var h := memory.GetHistory();
    ConversationKeepsConversational(h);
    messages := BuildMessages(h, webContext);
  }
}

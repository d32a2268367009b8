/**
 * The chat transcript kept in the session state, the request list built from
 * it for each completion, and the three ways the page changes it: the first
 * visit seeds a greeting, the sidebar button resets to that greeting, and a
 * submitted prompt adds the user turn and then the raw assistant reply.
 */
module Chat {

  datatype Role = System | User | Assistant

  /** One `{"role": ..., "content": ...}` entry. */
  datatype Message = Message(role: Role, content: string)

  /** The single message a new or reset transcript holds. */
  const Greeting: Message := Message(Assistant, "Hello! How can I help you today?")

  /** The fixed instruction put in front of every request. */
  const SystemInstruction: Message := Message(System, "You are a helpful assistant")

  /**
   * The shape every transcript has: it opens with the greeting, assistant and
   * user turns alternate, and it ends with an assistant turn. No system
   * message is ever stored.
   */
  predicate IsTranscript(msgs: seq<Message>)
  {
    && |msgs| % 2 == 1
    && msgs[0] == Greeting
    && forall k :: 0 <= k < |msgs| ==> msgs[k].role == (if k % 2 == 0 then Assistant else User)
  }

  /**
   * The message list sent for completion: the system instruction followed by
   * the history, in order.
   */
  function Request(history: seq<Message>): (r: seq<Message>)
    ensures |r| == |history| + 1
    ensures r[0] == SystemInstruction
    ensures forall k :: 0 <= k < |history| ==> r[k + 1] == history[k]
  {
    [SystemInstruction] + history
  }

  /**
   * A request built from a transcript that has just received the user's
   * prompt holds exactly one system message, at the front, and ends with
   * that prompt.
   */
  lemma {:induction false} RequestForPrompt(msgs: seq<Message>, prompt: string)
    requires IsTranscript(msgs)
    ensures var r := Request(msgs + [Message(User, prompt)]);
            && r[0] == SystemInstruction
            && (forall k :: 0 < k < |r| ==> r[k].role != System)
            && r[|r| - 1] == Message(User, prompt)
  {
  }

  /** Appending a user turn and then an assistant turn keeps the transcript shape. */
  lemma {:induction false} AppendTurnKeepsShape(msgs: seq<Message>, prompt: string, reply: string)
    requires IsTranscript(msgs)
    ensures IsTranscript(msgs + [Message(User, prompt)] + [Message(Assistant, reply)])
  {
  }

  /** The session's transcript, `st.session_state.messages`. */
  class Session {
    var messages: seq<Message>

    predicate Valid()
      reads this
    {
      IsTranscript(messages)
    }

    /** The first run of a session seeds the transcript with the greeting. */
    constructor ()
      ensures Valid()
      ensures messages == [Greeting]
    {
      messages := [Greeting];
    }

    /** "Reset Chat": the transcript becomes the greeting alone, whatever it held. */
    method Reset()
      modifies this
      ensures Valid()
      ensures messages == [Greeting]
    {
      messages := [Greeting];
    }

    /**
     * One pass of the input handler. An empty prompt (nothing submitted)
     * changes nothing and asks for no completion. Otherwise the user turn is
     * appended, the completion is asked for the system instruction followed
     * by the transcript as it now stands, and its raw reply (the empty string
     * when the call failed) is appended unsplit as the assistant turn and
     * returned for display. Earlier messages stay as they were, in order.
     */
    method Submit(prompt: string, complete: seq<Message> -> string) returns (reply: string)
      requires Valid()
      modifies this
      ensures Valid()
      ensures prompt == [] ==> messages == old(messages) && reply == []
      ensures prompt != [] ==>
                var asked := old(messages) + [Message(User, prompt)];
                && reply == complete(Request(asked))
                && messages == asked + [Message(Assistant, reply)]
    {
      if prompt == [] {
        return [];
      }
      ghost var before := messages;
      messages := messages + [Message(User, prompt)];
      reply := complete(Request(messages));
      messages := messages + [Message(Assistant, reply)];
      AppendTurnKeepsShape(before, prompt, reply);
    }
  }
}

/** Chat messages and the history the component hands to the generative-text
    provider. */
module Messages {

  const UserRole: string := "user"
  const AssistantRole: string := "assistant"
  /** The provider's name for the assistant side of a chat. */
  const ModelRole: string := "model"

  /** One entry of the session log, `{ role, content }`. Messages the
      component creates have role "user" or "assistant"; a log restored from
      storage may hold any role, so the role is kept as a string. */
  datatype Message = Message(role: string, content: string)

  /** One entry of the provider's history, `{ role, parts: [{ text }] }`. */
  datatype Part = Part(text: string)
  datatype Turn = Turn(role: string, parts: seq<Part>)

  /** What the component asks the provider: the earlier turns and the new
      user text. */
  datatype Request = Request(history: seq<Turn>, text: string)

  /** The log holds only the roles the component itself writes. */
  predicate SessionRoles(msgs: seq<Message>) {
    forall k :: 0 <= k < |msgs| ==> msgs[k].role == UserRole || msgs[k].role == AssistantRole
  }

  /** Appending a user message and an assistant message keeps a log to the
      component's own roles. */
  lemma SessionRolesExtend(msgs: seq<Message>, text: string, reply: string)
    requires SessionRoles(msgs)
    ensures SessionRoles(msgs + [Message(UserRole, text), Message(AssistantRole, reply)])
  {
    var longer := msgs + [Message(UserRole, text), Message(AssistantRole, reply)];
    forall k | 0 <= k < |longer|
      ensures longer[k].role == UserRole || longer[k].role == AssistantRole
    {
      if k < |msgs| {
        assert longer[k] == msgs[k];
      }
    }
  }

  function FormatTurn(m: Message): Turn {
    Turn(if m.role == AssistantRole then ModelRole else m.role, [Part(m.content)])
  }

  /** `messages.map(...)` into the provider's history format: one turn per
      message. */
  function FormatHistory(msgs: seq<Message>): (r: seq<Turn>)
    ensures |r| == |msgs|
    decreases |msgs|
  {
    if msgs == [] then [] else [FormatTurn(msgs[0])] + FormatHistory(msgs[1..])
  }

  /** The history has one turn per message, in the same order; each turn
      carries the message's content as its only part, and its role is "model"
      for an assistant message and the message's own role otherwise. */
  lemma {:induction false} FormatHistoryShape(msgs: seq<Message>)
    ensures |FormatHistory(msgs)| == |msgs|
    ensures forall k :: 0 <= k < |msgs| ==> FormatHistory(msgs)[k].parts == [Part(msgs[k].content)]
    ensures forall k :: 0 <= k < |msgs| && msgs[k].role == AssistantRole ==> FormatHistory(msgs)[k].role == ModelRole
    ensures forall k :: 0 <= k < |msgs| && msgs[k].role != AssistantRole ==> FormatHistory(msgs)[k].role == msgs[k].role
    decreases |msgs|
  {
    if msgs != [] {
      FormatHistoryShape(msgs[1..]);
      forall k | 1 <= k < |msgs|
        ensures FormatHistory(msgs)[k] == FormatHistory(msgs[1..])[k - 1]
      {
      }
    }
  }

  /** Formatting distributes over concatenation. */
  lemma {:induction false} FormatHistoryAppend(a: seq<Message>, b: seq<Message>)
    ensures FormatHistory(a + b) == FormatHistory(a) + FormatHistory(b)
    decreases |a|
  {
    if a != [] {
      assert (a + b)[1..] == a[1..] + b;
      FormatHistoryAppend(a[1..], b);
    } else {
      assert a + b == b;
    }
  }

  /** After one exchange the next request's history is the previous history
      followed by exactly two turns: the user text, then the reply under the
      provider's role "model". */
  lemma HistoryAfterExchange(msgs: seq<Message>, text: string, reply: string)
    ensures FormatHistory(msgs + [Message(UserRole, text), Message(AssistantRole, reply)])
      == FormatHistory(msgs) + [Turn(UserRole, [Part(text)]), Turn(ModelRole, [Part(reply)])]
  {
    var exchange := [Message(UserRole, text), Message(AssistantRole, reply)];
    FormatHistoryAppend(msgs, exchange);
    assert exchange[1..] == [Message(AssistantRole, reply)];
  }

  /** For a log written by the component itself, a turn has role "model"
      exactly when its message has role "assistant". */
  lemma ModelRoleIff(msgs: seq<Message>, k: nat)
    requires SessionRoles(msgs) && k < |msgs|
    ensures |FormatHistory(msgs)| == |msgs|
    ensures FormatHistory(msgs)[k].role == ModelRole <==> msgs[k].role == AssistantRole
    ensures FormatHistory(msgs)[k].role == UserRole <==> msgs[k].role == UserRole
  {
    FormatHistoryShape(msgs);
  }

  /** Reads a turn back as a message: the inverse of FormatTurn. */
  function UnformatTurn(t: Turn): Message
    requires |t.parts| == 1
  {
    Message(if t.role == ModelRole then AssistantRole else t.role, t.parts[0].text)
  }

  /** Formatting loses nothing for messages whose role is not already "model":
      every turn reads back as its message. */
  lemma FormatHistoryInverse(msgs: seq<Message>)
    requires forall k :: 0 <= k < |msgs| ==> msgs[k].role != ModelRole
    ensures |FormatHistory(msgs)| == |msgs|
    ensures forall k :: 0 <= k < |msgs| ==>
      |FormatHistory(msgs)[k].parts| == 1 && UnformatTurn(FormatHistory(msgs)[k]) == msgs[k]
  {
    FormatHistoryShape(msgs);
  }
}

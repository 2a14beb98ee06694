/** The chat component's state: the message log, the busy flag and the value
    kept in browser storage, with the effects and handlers that change them. */
module Session {
  import opened Text
  import opened Messages
  import opened Enricher

  const Greeting: string := "Hello, I'm your virtual therapist. How are you feeling today?"
  const Apology: string := "I'm sorry, I had trouble processing that. Would you like to try sharing that again?"

  /** The assistant message a fresh log starts with. */
  const GreetingMessage: Message := Message(AssistantRole, Greeting)

  /** What reading the storage key and parsing it yields: no value, the empty
      string (the only falsy string), a parsed list, or text that does not
      parse. */
  datatype Stored = Absent | Blank | Parsed(log: seq<Message>) | Malformed

  /** The provider's answer to one request: reply text, or any failure of the
      call or of reading its response. */
  datatype Completion = Replied(text: string) | Failed

  datatype Option<T> = None | Some(value: T)

  /** The content of the assistant message that answers `text`: on success
      it opens with the trimmed model text, on failure it is the apology. */
  function Reply(text: string, outcome: Completion, d: Draws): (r: string)
    requires ValidDraws(d)
    ensures outcome.Replied? ==> StartsWith(r, Trim(outcome.text))
    ensures outcome.Failed? ==> r == Apology
  {
    match outcome
    case Replied(raw) => EnrichedReply(raw, text, d)
    case Failed => Apology
  }

  class TherapistChat {
    var messages: seq<Message>
    var loading: bool
    /** The value under the storage key, as the next read would see it. */
    var storage: Stored

    /** The stored value is the current log. */
    predicate Saved()
      reads this
    {
      storage == Parsed(messages)
    }

    /** First render: an empty log, not busy, whatever storage holds. */
    constructor (stored: Stored)
      ensures messages == [] && !loading && storage == stored
    {
      messages := [];
      loading := false;
      storage := stored;
    }

    /** The load effect. With nothing stored, or the empty string, the log
        becomes the greeting alone; a value that parses becomes the log as it
        is; a value that does not parse leaves the log as it was, and no
        greeting is added. Storage itself is only read. */
    method Load()
      modifies this`messages
      ensures storage.Absent? || storage.Blank? ==> messages == [GreetingMessage]
      ensures storage.Parsed? ==> messages == storage.log
      ensures storage.Malformed? ==> messages == old(messages)
      ensures old(Saved()) ==> messages == old(messages)
    {
      match storage
      case Absent =>
        messages := [GreetingMessage];
      case Blank =>
        messages := [GreetingMessage];
      case Parsed(log) =>
        messages := log;
      case Malformed =>
    }

    /** The save effect: the whole log is written back. */
    method Save()
      modifies this`storage
      ensures Saved()
    {
      storage := Parsed(messages);
    }

    /** Mounting runs the load effect, then the save effect. In the same pass
        the save effect still sees the log from before the load and writes it;
        when the load changed the log the save effect runs again and writes the
        loaded log, so the end state is the same as loading and saving once.
        After a value that does not parse the log stays empty and the empty
        list is what is stored. */
    method Mount()
      modifies this`messages, this`storage
      ensures old(storage).Absent? || old(storage).Blank? ==> messages == [GreetingMessage]
      ensures old(storage).Parsed? ==> messages == old(storage).log
      ensures old(storage).Malformed? ==> messages == old(messages)
      ensures Saved()
    {
      Load();
      Save();
    }

    /** The part of `sendMessage` before the provider call: set the busy flag,
        append the user message, let the save effect store it, and build the
        request from the log as it was before the user message. */
    method BeginSend(text: string) returns (request: Request)
      modifies this`messages, this`loading, this`storage
      ensures loading
      ensures messages == old(messages) + [Message(UserRole, text)]
      ensures Saved()
      ensures request == Request(FormatHistory(old(messages)), text)
    {
      loading := true;
      var newMessages := messages + [Message(UserRole, text)];
      messages := newMessages;
      Save();
      request := Request(FormatHistory(newMessages[..|newMessages| - 1]), text);
    }

    /** The part after the provider call: append exactly one assistant
        message, the enriched reply on success and the apology on failure,
        store the log and clear the busy flag on both paths. */
    method FinishSend(text: string, outcome: Completion, d: Draws)
      requires ValidDraws(d)
      modifies this`messages, this`loading, this`storage
      ensures !loading
      ensures messages == old(messages) + [Message(AssistantRole, Reply(text, outcome, d))]
      ensures outcome.Failed? ==> messages[|messages| - 1].content == Apology
      ensures outcome.Replied? ==> messages[|messages| - 1].content == EnrichedReply(outcome.text, text, d)
      ensures Saved()
    {
      var content: string;
      match outcome {
        case Replied(raw) =>
          var reply := Trim(raw);
          var extras := CollectExtras(text, d);
          content := Join([reply] + RenderAll(extras), Separator);
        case Failed =>
          content := Apology;
      }
      messages := messages + [Message(AssistantRole, content)];
      Save();
      loading := false;
    }

    /** `sendMessage(text)`: the log grows by the user message and exactly one
        assistant message, earlier messages stay as they were, the request
        carries the earlier log in the provider's format, and the busy flag
        ends cleared. A log holding only user and assistant messages keeps
        that shape. */
    method Send(text: string, outcome: Completion, d: Draws) returns (request: Request)
      requires ValidDraws(d)
      modifies this`messages, this`loading, this`storage
      ensures messages == old(messages) + [Message(UserRole, text), Message(AssistantRole, Reply(text, outcome, d))]
      ensures request == Request(FormatHistory(old(messages)), text)
      ensures !loading && Saved()
      ensures SessionRoles(old(messages)) ==> SessionRoles(messages)
    {
      ghost var before := messages;
      var user := Message(UserRole, text);
      request := BeginSend(text);
      FinishSend(text, outcome, d);
      ghost var answer := Message(AssistantRole, Reply(text, outcome, d));
      assert messages == before + [user] + [answer];
      assert messages == before + [user, answer];
      if SessionRoles(before) {
        SessionRolesExtend(before, text, Reply(text, outcome, d));
      }
    }

    /** `handleSubmit`: the input is trimmed; input that is blank after
        trimming sends nothing and changes nothing, any other input is sent
        in its trimmed form. */
    method Submit(input: string, outcome: Completion, d: Draws) returns (request: Option<Request>)
      requires ValidDraws(d)
      modifies this`messages, this`loading, this`storage
      ensures request.None? <==> AllSpace(input)
      ensures request.None? ==>
        messages == old(messages) && loading == old(loading) && storage == old(storage)
      ensures request.Some? ==>
        && messages == old(messages) + [Message(UserRole, Trim(input)), Message(AssistantRole, Reply(Trim(input), outcome, d))]
        && request.value == Request(FormatHistory(old(messages)), Trim(input))
        && IsTrimmed(Trim(input)) && Trim(input) != ""
        && !loading && Saved()
    {
      var text := Trim(input);
      TrimEmptyIff(input);
      if text == "" {
        return None;
      }
      var _, _ := TrimIsSlice(input);
      var sent := Send(text, outcome, d);
      request := Some(sent);
    }
  }
}

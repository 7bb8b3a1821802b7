/**
 * The home page's chat form (src/App.tsx). Its `handleSubmit` never calls
 * the AI: it always answers with a fixed placeholder.
 */
module App {
  import opened Text
  import opened Records

  /** The reply appended to every question. */
  const Placeholder := "Arkeolojik dilbilim analizi yapılıyor..."

  /** A sequence of pairs: a user question, then the placeholder reply. */
  ghost predicate Paired(log: seq<ChatMessage>) {
    |log| % 2 == 0
    && forall k :: 0 <= k < |log| ==>
         if k % 2 == 0 then log[k].role == UserRole
         else log[k] == ChatMessage(AssistantRole, Placeholder)
  }

  /** Appending one more question and its placeholder keeps the log paired. */
  lemma AppendPair(log: seq<ChatMessage>, question: string)
    requires Paired(log)
    ensures Paired(log + [ChatMessage(UserRole, question), ChatMessage(AssistantRole, Placeholder)])
  {
  }

  class App {
    var input: string
    var messages: seq<ChatMessage>
    var loading: bool

    /**
     * The log is a sequence of pairs, each a user question followed by the
     * placeholder reply, and no submit is in progress between events.
     */
    ghost predicate Valid()
      reads this
    {
      Paired(messages) && !loading
    }

    constructor ()
      ensures Valid() && input == "" && messages == [] && !loading
    {
      input := "";
      messages := [];
      loading := false;
    }

    /** The input field's `onChange`. */
    method SetInput(text: string)
      modifies this`input
      ensures input == text
    {
      input := text;
    }

    /**
     * `handleSubmit`: nothing happens for whitespace-only input; otherwise
     * the input is cleared and the log grows by exactly two turns, the
     * trimmed question and the placeholder, leaving earlier turns as they
     * were; loading ends false.
     */
    method HandleSubmit()
      requires Valid()
      modifies this
      ensures Valid()
      ensures var question := Trim(old(input));
        if question == [] then
          input == old(input) && messages == old(messages)
        else
          && input == ""
          && messages == old(messages) + [ChatMessage(UserRole, question), ChatMessage(AssistantRole, Placeholder)]
    {
      var question := Trim(input);
      if question == [] {
        return;
      }
      var log, ask, reply := messages, ChatMessage(UserRole, question), ChatMessage(AssistantRole, Placeholder);
      AppendPair(log, question);
      assert log + [ask] + [reply] == log + [ask, reply];
      input := "";
      messages := messages + [ask];
      loading := true;
      messages := messages + [reply];
      loading := false;
    }
  }
}

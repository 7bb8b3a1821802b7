/**
 * The chat panel (src/components/ChatBot.tsx): an append-only message log
 * seeded with a greeting, an input field and a loading flag. `handleSend`
 * runs in two steps around its `await`: `Send` is everything before the
 * reply arrives, `Receive` everything after.
 */
module ChatBot {
  import opened Wrappers
  import opened Text
  import opened Records
  import Gemini

  const Greeting := "Merhaba! Ben arkeolojik dilbilim konusunda uzmanlaşmış AI asistanınızım. Antik diller, yazıtlar, medeniyetler ve arkeolojik bulgular hakkında sorularınızı yanıtlayabilirim."

  /** The domain instruction put in front of every question; it is never stored in the log. */
  const SystemPrompt := "Sen arkeolojik dilbilim konusunda uzman bir AI asistansın. Antik diller (Sümer, Akadca, Mısır Hiyeroglifleri, Maya, Fenikece, Linear B, Eski Türkçe, Antik Yunanca vb.), arkeolojik bulgular, yazıtlar ve antik medeniyetler hakkında detaylı bilgi veriyorsun. Yanıtların bilimsel, açıklayıcı ve Türkçe olmalı."

  const QuestionLabel := "\n\nKullanıcı sorusu: "

  /** The reply shown when the chat call fails. */
  const Apology := "Üzgünüm, bir hata oluştu. Lütfen tekrar deneyin."

  /** The log alternates: assistant at even positions, user at odd ones. */
  ghost predicate Alternates(log: seq<ChatMessage>) {
    forall k :: 0 <= k < |log| ==> log[k].role == (if k % 2 == 0 then AssistantRole else UserRole)
  }

  /**
   * A conversation: opened by the greeting, alternating assistant and user
   * turns, and awaiting a reply exactly when the last turn is the user's.
   */
  ghost predicate Conversation(log: seq<ChatMessage>, awaiting: bool) {
    |log| >= 1 && log[0] == ChatMessage(AssistantRole, Greeting)
    && Alternates(log)
    && (awaiting <==> |log| % 2 == 0)
  }

  /** A question asked when no reply is awaited leaves a conversation awaiting one. */
  lemma Ask(log: seq<ChatMessage>, question: string)
    requires Conversation(log, false)
    ensures Conversation(log + [ChatMessage(UserRole, question)], true)
  {
    var next := log + [ChatMessage(UserRole, question)];
    assert next[0] == log[0];
  }

  /** A reply to an awaited question leaves a conversation awaiting nothing. */
  lemma Answer(log: seq<ChatMessage>, reply: string)
    requires Conversation(log, true)
    ensures Conversation(log + [ChatMessage(AssistantRole, reply)], false)
  {
    var next := log + [ChatMessage(AssistantRole, reply)];
    assert next[0] == log[0];
  }

  /** A log opened by the greeting goes out with the greeting, labelled "model", as its first entry. */
  lemma GreetingLeadsHistory(log: seq<ChatMessage>)
    requires log != [] && log[0] == ChatMessage(AssistantRole, Greeting)
    ensures Gemini.MapHistory(log)[0] == Gemini.Content("model", [Gemini.TextPart(Greeting)])
  {
    assert Gemini.VendorRole(log[0].role) == "model" by {
      assert AssistantRole != UserRole;
    }
  }

  class ChatBot {
    var messages: seq<ChatMessage>
    var input: string
    var loading: bool

    /**
     * The log starts with the greeting and alternates assistant and user
     * turns; a request is outstanding exactly when the last turn is the
     * user's.
     */
    ghost predicate Valid()
      reads this
    {
      Conversation(messages, loading)
    }

    constructor ()
      ensures Valid()
      ensures messages == [ChatMessage(AssistantRole, Greeting)] && input == "" && !loading
    {
      messages := [ChatMessage(AssistantRole, Greeting)];
      input := "";
      loading := false;
    }

    /** The input field's `onChange`. */
    method SetInput(text: string)
      modifies this`input
      ensures input == text
    {
      input := text;
    }

    /**
     * `handleSend` up to its `await`. Nothing happens when the trimmed input
     * is empty or a request is outstanding. Otherwise the input is cleared,
     * the trimmed question is appended as a user turn, loading is set, and
     * the one request sent carries the instruction, the label and the
     * question, with the log as it stood BEFORE the question was appended
     * as history.
     */
    method Send() returns (request: Option<Gemini.ChatRequest>)
      requires Valid()
      modifies this
      ensures Valid()
      ensures var question := Trim(old(input));
        if question == [] || old(loading) then
          && request == None
          && messages == old(messages) && input == old(input) && loading == old(loading)
        else
          && messages == old(messages) + [ChatMessage(UserRole, question)]
          && input == "" && loading
          && request == Some(Gemini.ChatRequestFor(SystemPrompt + QuestionLabel + question, old(messages)))
    {
      var question := Trim(input);
      if question == [] || loading {
        return None;
      }
      var history := messages;
      Ask(history, question);
      input := "";
      messages := messages + [ChatMessage(UserRole, question)];
      loading := true;
      request := Some(Gemini.ChatRequestFor(SystemPrompt + QuestionLabel + question, history));
    }

    /**
     * `handleSend` after its `await`: exactly one assistant turn is
     * appended, the reply on success and the fixed apology on failure, and
     * loading is cleared in both cases.
     */
    method Receive(reply: Result<string, Failure>)
      requires Valid() && loading
      modifies this`messages, this`loading
      ensures Valid()
      ensures messages == old(messages) + [ChatMessage(AssistantRole, if reply.Ok? then reply.value else Apology)]
      ensures !loading
    {
      var text := if reply.Ok? then reply.value else Apology;
      Answer(messages, text);
      messages := messages + [ChatMessage(AssistantRole, text)];
      loading := false;
    }
  }
}

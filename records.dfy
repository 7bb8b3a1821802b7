/**
 * The shapes of the rows and values the components exchange with the
 * backend tables and the AI endpoints (src/types/index.ts).
 * Timestamps are abstracted to integers that order like the backend's
 * `created_at` column.
 */
module Records {
  import opened Wrappers

  /** A reference row of `ancient_scripts`. */
  datatype AncientScript = AncientScript(
    id: string, name: string, code: string, period: string,
    region: string, description: string, createdAt: int)

  /**
   * The parsed answer of the vision model. `confidence` is whatever number
   * the model wrote: nothing bounds it.
   */
  datatype AnalysisResult = AnalysisResult(
    scriptType: string, originalText: string, translation: string,
    period: string, region: string, confidence: int, notes: string)

  /** A row of `translations`, with the embedded `ancient_scripts` of the feed's select. */
  datatype Translation = Translation(
    id: string, userId: Option<string>, imageUrl: string, scriptId: Option<string>,
    originalText: string, translatedText: string, confidenceScore: int,
    analysisData: AnalysisResult, isPublic: bool, createdAt: int, updatedAt: int,
    script: Option<AncientScript>)

  /** A row of `comments`. */
  datatype Comment = Comment(
    id: string, translationId: string, userId: Option<string>,
    content: string, createdAt: int, updatedAt: int)

  /** The object passed to `insert` on `translations`; the backend fills in id and timestamps. */
  datatype TranslationInsert = TranslationInsert(
    userId: Option<string>, imageUrl: string, scriptId: Option<string>,
    originalText: string, translatedText: string, confidenceScore: int,
    analysisData: AnalysisResult, isPublic: bool)

  /** The object passed to `insert` on `comments`. */
  datatype CommentInsert = CommentInsert(
    translationId: string, userId: Option<string>, content: string)

  /** A chat turn `{ role, content }`; the components use the roles "user" and "assistant". */
  datatype ChatMessage = ChatMessage(role: string, content: string)

  const UserRole := "user"
  const AssistantRole := "assistant"

  /** The signed-in user returned by `auth.getUser()`, when there is one. */
  datatype User = User(id: string)

  /** What an awaited call can throw. */
  datatype Failure =
    | AiGatewayError   // transport or authentication failure of a Gemini call
    | JsonSyntaxError  // `JSON.parse` rejected its argument
    | PersistenceError // the backend reported an error for a query or a write

  /**
   * `x?.id || null`: a missing object and an empty id (falsy in JavaScript)
   * both become null.
   */
  function IdOrNull(id: Option<string>): (r: Option<string>)
    ensures r.Some? <==> id.Some? && id.value != ""
    ensures r.Some? ==> r == id
  {
    if id.Some? && id.value != "" then id else None
  }

  function UserIdOf(user: Option<User>): Option<string> {
    if user.Some? then Some(user.value.id) else None
  }

  function ScriptIdOf(script: Option<AncientScript>): Option<string> {
    if script.Some? then Some(script.value.id) else None
  }
}

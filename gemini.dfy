/**
 * The Gemini gateway (src/lib/gemini.ts): the request for an image
 * analysis and the extraction of its answer, and the chat session built
 * from a conversation history. The network calls themselves are not
 * modelled: their answers are parameters, and `JSON.parse` is a partial
 * function `parse` that yields None where it would throw.
 */
module Gemini {
  import opened Wrappers
  import opened Text
  import opened Records

  const ModelName := "gemini-1.5-flash"

  /** The fixed instruction sent with every image. */
  const AnalysisPrompt :=
    "Bu görüntüdeki antik yazıyı analiz et. Lütfen şunları belirle:\n"
    + "1. Hangi antik yazı sistemi kullanılmış (Sümer, Mısır Hiyeroglifleri, Yunanca, vb.)\n"
    + "2. Metnin transkripsionu (okunabiliyorsa)\n"
    + "3. Türkçe çevirisi\n"
    + "4. Dönem ve bölge tahmini\n"
    + "5. Güven skoru (0-100)\n\n"
    + "JSON formatında yanıt ver:\n"
    + "{\n"
    + "  \"scriptType\": \"tespit edilen yazı sistemi\",\n"
    + "  \"originalText\": \"transkripsiyon\",\n"
    + "  \"translation\": \"türkçe çeviri\",\n"
    + "  \"period\": \"dönem bilgisi\",\n"
    + "  \"region\": \"bölge\",\n"
    + "  \"confidence\": güven_skoru_sayı,\n"
    + "  \"notes\": \"ek notlar\"\n"
    + "}"

  /** The MIME type declared for the image, whatever the uploaded file's type was. */
  const ImageMimeType := "image/jpeg"

  /** The script type reported when the answer holds no braces ("could not be determined"). */
  const UndeterminedScript := "Belirlenemedi"

  const MaxOutputTokens := 1000

  /** `generateContent([prompt, { inlineData: { data, mimeType } }])`. */
  datatype GenerateRequest = GenerateRequest(
    model: string, prompt: string, imageData: Option<string>, mimeType: string)

  /** The request `analyzeAncientText(imageBase64)` sends; an undefined payload stays undefined. */
  function AnalysisRequest(imageBase64: Option<string>): (req: GenerateRequest)
    ensures req.imageData == imageBase64 && req.mimeType == ImageMimeType
    ensures req.prompt == AnalysisPrompt && req.model == ModelName
  {
    GenerateRequest(ModelName, AnalysisPrompt, imageBase64, ImageMimeType)
  }

  /**
   * The regular expression `/\{[\s\S]*\}/` can match `s[i..j]`: it starts
   * with `{` and ends with `}` (anything may stand between).
   */
  predicate IsBraceMatch(s: string, i: int, j: int) {
    0 <= i < j <= |s| && s[i] == '{' && s[j - 1] == '}'
  }

  /**
   * The span `s.match(/\{[\s\S]*\}/)` returns. JavaScript takes the
   * leftmost start and, the star being greedy, the longest match from it;
   * here that is the first `{` through the last `}`. There is a match
   * exactly when some `}` follows some `{`.
   */
  function BraceMatch(s: string): (m: Option<(nat, nat)>)
    ensures m.None? <==> !exists i, j :: IsBraceMatch(s, i, j)
    ensures m.Some? ==> IsBraceMatch(s, m.value.0, m.value.1)
    ensures m.Some? ==> forall i, j :: IsBraceMatch(s, i, j) ==> m.value.0 <= i && j <= m.value.1
  {
    match IndexOf(s, '{')
    case None => None
    case Some(i) =>
      match LastIndexOf(s, '}')
      case None => None
      case Some(k) =>
        MatchWithin(s, i, k);
        assert i < k ==> IsBraceMatch(s, i, k + 1);
        if i < k then Some((i, k + 1)) else None
  }

  /** Every match starts at or after the first `{` and ends at or before the last `}`. */
  lemma MatchWithin(s: string, first: nat, last: nat)
    requires first < |s| && last < |s| && s[first] == '{' && s[last] == '}'
    requires forall k :: 0 <= k < first ==> s[k] != '{'
    requires forall k :: last < k < |s| ==> s[k] != '}'
    ensures forall i, j :: IsBraceMatch(s, i, j) ==> first <= i && j <= last + 1
    ensures first > last ==> !exists i, j :: IsBraceMatch(s, i, j)
  {
  }

  /** `jsonMatch[0]`, the matched text, when there is a match. */
  function JsonSlice(s: string): (r: Option<string>)
    ensures r.None? <==> BraceMatch(s).None?
    ensures r.Some? ==> r.value == s[BraceMatch(s).value.0..BraceMatch(s).value.1]
  {
    match BraceMatch(s)
    case None => None
    case Some((i, j)) => Some(s[i..j])
  }

  /**
   * The matched text starts with `{`, ends with `}`, is a contiguous part
   * of the answer, and no `{` stands before it and no `}` after it.
   */
  lemma JsonSliceShape(s: string)
    requires JsonSlice(s).Some?
    ensures var (i, j) := BraceMatch(s).value; var t := JsonSlice(s).value;
      && t == s[i..j] && |t| >= 2 && t[0] == '{' && t[|t| - 1] == '}'
      && (forall k :: 0 <= k < i ==> s[k] != '{')
      && (forall k :: j <= k < |s| ==> s[k] != '}')
  {
    var (i, j) := BraceMatch(s).value;
    var t := s[i..j];
    assert t[0] == s[i] && t[|t| - 1] == s[j - 1];
    forall k | 0 <= k < i ensures s[k] != '{' {
      assert !IsBraceMatch(s, k, j) || i <= k;
    }
    forall k | j <= k < |s| ensures s[k] != '}' {
      assert !IsBraceMatch(s, i, k + 1) || k + 1 <= j;
    }
  }

  /**
   * Prose around a JSON object is discarded: with no `{` before the object
   * and no `}` after it, the matched text is the object itself, whatever it
   * holds.
   */
  lemma JsonSliceOfObject(prefix: string, body: string, suffix: string)
    requires '{' !in prefix && '}' !in suffix
    ensures JsonSlice(prefix + "{" + body + "}" + suffix) == Some("{" + body + "}")
  {
    var obj := "{" + body + "}";
    var s := prefix + "{" + body + "}" + suffix;
    var i, j := |prefix|, |prefix| + |obj|;
    assert s == prefix + obj + suffix;
    forall m | 0 <= m < i ensures s[m] != '{' {
      assert s[m] == prefix[m];
    }
    forall m | j <= m < |s| ensures s[m] != '}' {
      assert s[m] == suffix[m - j];
    }
    assert s[i] == '{' && s[j - 1] == '}';
    BraceMatchAt(s, i, j);
    assert s[i..j] == obj;
  }

  /** A match with no `{` before it and no `}` after it is the one the expression finds. */
  lemma BraceMatchAt(s: string, i: nat, j: nat)
    requires IsBraceMatch(s, i, j)
    requires forall m :: 0 <= m < i ==> s[m] != '{'
    requires forall m :: j <= m < |s| ==> s[m] != '}'
    ensures BraceMatch(s) == Some((i, j))
  {
    var r := BraceMatch(s);
    assert r.Some?;
    var (a, b) := r.value;
    assert IsBraceMatch(s, a, b);
  }

  /** The object returned when the answer holds no braces: the raw text goes into `translation` and `notes`. */
  function Fallback(response: string): (r: AnalysisResult)
    ensures r.scriptType == UndeterminedScript && r.confidence == 0
    ensures r.originalText == "" && r.period == "" && r.region == ""
    ensures r.translation == response && r.notes == response
  {
    AnalysisResult(UndeterminedScript, "", response, "", "", 0, response)
  }

  /**
   * What `analyzeAncientText` makes of the model's answer. When no `}`
   * follows a `{`, the result is the fixed undetermined object carrying the
   * raw text. Otherwise it is exactly `JSON.parse` of the matched text: an
   * unparseable text is an error, never the fallback, and a parsed object
   * is returned unchanged (its confidence is not clamped).
   */
  function ParseAnswer(response: string, parse: string -> Option<AnalysisResult>): (r: Result<AnalysisResult, Failure>)
    ensures (!exists i, j :: IsBraceMatch(response, i, j)) ==> r == Ok(Fallback(response))
    ensures (exists i, j :: IsBraceMatch(response, i, j)) ==>
      && JsonSlice(response).Some?
      && (parse(JsonSlice(response).value).None? ==> r == Err(JsonSyntaxError))
      && (parse(JsonSlice(response).value).Some? ==> r == Ok(parse(JsonSlice(response).value).value))
  {
    match JsonSlice(response)
    case None => Ok(Fallback(response))
    case Some(json) =>
      match parse(json)
      case None => Err(JsonSyntaxError)
      case Some(result) => Ok(result)
  }

  /**
   * `analyzeAncientText`, given what `generateContent` answered: a transport
   * failure propagates unchanged, otherwise the answer is parsed as above.
   * The only error it adds is a failed parse.
   */
  function AnalyzeAncientText(answer: Result<string, Failure>, parse: string -> Option<AnalysisResult>): (r: Result<AnalysisResult, Failure>)
    ensures answer.Err? ==> r == Err(answer.error)
    ensures answer.Ok? ==> r == ParseAnswer(answer.value, parse)
    ensures answer.Ok? && r.Err? ==> r.error == JsonSyntaxError
  {
    match answer
    case Err(e) => Err(e)
    case Ok(response) => ParseAnswer(response, parse)
  }

  /** A Gemini content entry `{ role, parts: [{ text }] }`. */
  datatype Part = TextPart(text: string)
  datatype Content = Content(role: string, parts: seq<Part>)

  /**
   * `msg.role === 'user' ? 'user' : 'model'`: only the labels "user" and
   * "model" go out, "user" stays "user", and every other role, "assistant"
   * included, becomes "model".
   */
  function VendorRole(role: string): (r: string)
    ensures r == "user" || r == "model"
    ensures r == "user" <==> role == UserRole
  {
    if role == UserRole then "user" else "model"
  }

  /**
   * `history.map(...)`: one content entry per message, in order, with the
   * message text as its single part and the role translated to the
   * vendor's labels.
   */
  function MapHistory(history: seq<ChatMessage>): (r: seq<Content>)
    ensures |r| == |history|
    ensures forall k :: 0 <= k < |history| ==>
      r[k].role == VendorRole(history[k].role) && r[k].parts == [TextPart(history[k].content)]
  {
    if history == [] then []
    else [Content(VendorRole(history[0].role), [TextPart(history[0].content)])] + MapHistory(history[1..])
  }

  /** Mapping is element-wise: the mapping of a concatenation is the concatenation of the mappings. */
  lemma {:induction false} MapHistoryAppend(a: seq<ChatMessage>, b: seq<ChatMessage>)
    ensures MapHistory(a + b) == MapHistory(a) + MapHistory(b)
  {
    if a != [] {
      assert (a + b)[1..] == a[1..] + b;
      MapHistoryAppend(a[1..], b);
    }
  }

  /** The options of `model.startChat`. */
  datatype ChatSession = ChatSession(model: string, history: seq<Content>, maxOutputTokens: nat)

  /** One `chat.sendMessage(message)` on a session started from `history`. */
  datatype ChatRequest = ChatRequest(session: ChatSession, message: string)

  /**
   * The one request `chatWithGemini(message, history)` sends. The caller's
   * history is a value here, so it cannot be changed by the call.
   */
  function ChatRequestFor(message: string, history: seq<ChatMessage>): (req: ChatRequest)
    ensures req.message == message && req.session.maxOutputTokens == MaxOutputTokens
    ensures req.session.history == MapHistory(history)
  {
    ChatRequest(ChatSession(ModelName, MapHistory(history), MaxOutputTokens), message)
  }
}

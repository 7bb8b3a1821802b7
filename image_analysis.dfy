/**
 * The upload-and-analyse panel (src/components/ImageAnalysis.tsx): the
 * chosen file, its data-URL preview, the busy flag, the last result and
 * the share toggle. The AI answer, the script lookup, the signed-in user
 * and the insert's outcome are parameters of `HandleAnalyze`; the
 * asynchronous file read is the separate event `OnPreviewRead`.
 */
module ImageAnalysis {
  import opened Wrappers
  import opened Text
  import opened Records
  import Gemini

  /** The part of a browser `File` the panel looks at. */
  datatype File = File(name: string, mimeType: string)

  /** `file.type.startsWith('image/')`. */
  predicate IsImage(file: File) {
    StartsWith(file.mimeType, "image/")
  }

  /**
   * `preview.split(',')[1]`: the text between the first comma and the next
   * one (or the end); undefined when the preview has no comma.
   */
  function Payload(preview: string): (r: Option<string>)
    ensures r.None? <==> IndexOf(preview, ',').None?
    ensures r.Some? ==>
      var start := IndexOf(preview, ',').value + 1;
      var end := start + |r.value|;
      && end <= |preview| && preview[start..end] == r.value
      && (forall k :: 0 <= k < |r.value| ==> r.value[k] != ',')
      && (end == |preview| || preview[end] == ',')
  {
    var parts := Split(preview, ',');
    if |parts| > 1 then
      var start := IndexOf(preview, ',').value + 1;
      var rest := preview[start..];
      assert parts[1] == Split(rest, ',')[0];
      match IndexOf(rest, ',')
      case None =>
        assert parts[1] == rest;
        Some(parts[1])
      case Some(k) =>
        assert parts[1] == rest[..k];
        Some(parts[1])
    else None
  }

  /** The `is_public`, `original_text`, `translated_text` and `confidence_score` columns agree with `analysis_data`. */
  predicate ColumnsMatchAnalysis(row: TranslationInsert) {
    && row.originalText == row.analysisData.originalText
    && row.translatedText == row.analysisData.translation
    && row.confidenceScore == row.analysisData.confidence
  }

  /**
   * The row inserted into `translations` for an analysis: the scalar
   * columns copy the analysis (confidence unclamped), `analysis_data` is
   * the whole analysis, the image is the full data-URL preview, the
   * script and user ids are null when there is no (or an empty) id, and
   * `is_public` is the share toggle.
   */
  function TranslationRow(analysis: AnalysisResult, preview: string, script: Option<AncientScript>,
                          user: Option<User>, sharePublic: bool): (row: TranslationInsert)
    ensures ColumnsMatchAnalysis(row) && row.analysisData == analysis
    ensures row.imageUrl == preview && row.isPublic == sharePublic
    ensures row.scriptId.None? <==> script.None? || script.value.id == ""
    ensures row.userId.None? <==> user.None? || user.value.id == ""
    ensures row.scriptId.Some? ==> row.scriptId.value == script.value.id
    ensures row.userId.Some? ==> row.userId.value == user.value.id
  {
    TranslationInsert(
      userId := IdOrNull(UserIdOf(user)),
      imageUrl := preview,
      scriptId := IdOrNull(ScriptIdOf(script)),
      originalText := analysis.originalText,
      translatedText := analysis.translation,
      confidenceScore := analysis.confidence,
      analysisData := analysis,
      isPublic := sharePublic)
  }

  class ImageAnalysis {
    var selectedFile: Option<File>
    var preview: string
    var analyzing: bool
    var result: Option<AnalysisResult>
    var sharePublic: bool
    /** Whether the parent passed `onAnalysisComplete`. */
    const hasCallback: bool

    /** No analysis is in progress between events. */
    ghost predicate Valid()
      reads this
    {
      !analyzing
    }

    constructor (hasCallback: bool)
      ensures Valid()
      ensures selectedFile == None && preview == "" && result == None && sharePublic
      ensures this.hasCallback == hasCallback
    {
      selectedFile := None;
      preview := "";
      analyzing := false;
      result := None;
      sharePublic := true;
      this.hasCallback := hasCallback;
    }

    /**
     * `handleFileSelect`: a file whose MIME type starts with "image/" is
     * selected, the last result is cleared and the file read is started;
     * any other choice (or none) changes nothing. The preview itself is
     * only replaced when the read completes.
     */
    method HandleFileSelect(file: Option<File>) returns (readStarted: bool)
      modifies this`selectedFile, this`result
      ensures readStarted <==> file.Some? && IsImage(file.value)
      ensures readStarted ==> selectedFile == file && result == None
      ensures !readStarted ==> selectedFile == old(selectedFile) && result == old(result)
    {
      readStarted := file.Some? && IsImage(file.value);
      if readStarted {
        selectedFile := file;
        result := None;
      }
    }

    /** The file reader's `onloadend`: the data URL becomes the preview. */
    method OnPreviewRead(dataUrl: string)
      modifies this`preview
      ensures preview == dataUrl
    {
      preview := dataUrl;
    }

    /** The share checkbox's `onChange`. */
    method SetSharePublic(checked: bool)
      modifies this`sharePublic
      ensures sharePublic == checked
    {
      sharePublic := checked;
    }

    /**
     * `handleAnalyze`. Without a selected file and a preview nothing
     * happens. Otherwise the payload after the data URL's comma is sent
     * for analysis. If the call fails or its JSON does not parse, nothing
     * is stored and the last result stays. Otherwise the result is shown,
     * the script is looked up by `%scriptType%`, one row is inserted, and
     * the completion callback runs whether or not the backend accepted
     * the row (`insertFailed` is never looked at). The busy flag ends
     * false on every path.
     */
    method HandleAnalyze(answer: Result<string, Failure>, parse: string -> Option<AnalysisResult>,
                         script: Option<AncientScript>, user: Option<User>, insertFailed: bool)
      returns (request: Option<Gemini.GenerateRequest>, lookup: Option<string>,
               row: Option<TranslationInsert>, notified: bool)
      requires Valid()
      modifies this`analyzing, this`result
      ensures Valid()
      ensures old(selectedFile).None? || old(preview) == [] ==>
        && request == None && lookup == None && row == None && !notified
        && result == old(result)
      ensures old(selectedFile).Some? && old(preview) != [] ==>
        var outcome := Gemini.AnalyzeAncientText(answer, parse);
        && request == Some(Gemini.AnalysisRequest(Payload(preview)))
        && (outcome.Err? ==> result == old(result) && lookup == None && row == None && !notified)
        && (outcome.Ok? ==>
              && result == Some(outcome.value)
              && lookup == Some("%" + outcome.value.scriptType + "%")
              && row == Some(TranslationRow(outcome.value, preview, script, user, sharePublic))
              && notified == hasCallback)
    {
      request, lookup, row, notified := None, None, None, false;
      if selectedFile.None? || preview == [] {
        return;
      }
      analyzing := true;
      var base64 := Payload(preview);
      request := Some(Gemini.AnalysisRequest(base64));
      var outcome := Gemini.AnalyzeAncientText(answer, parse);
      match outcome {
        case Err(_) =>
          // the error is reported to the user; nothing is stored
        case Ok(analysis) =>
          result := Some(analysis);
          lookup := Some("%" + analysis.scriptType + "%");
          row := Some(TranslationRow(analysis, preview, script, user, sharePublic));
          notified := hasCallback;
      }
      analyzing := false;
    }
  }

  /** An answer with no JSON: the fallback object with the whole answer as translation and notes. */
  lemma NoJsonAnswer(parse: string -> Option<AnalysisResult>)
    ensures Gemini.ParseAnswer("I cannot determine the script.", parse)
      == Ok(AnalysisResult(Gemini.UndeterminedScript, "", "I cannot determine the script.", "", "", 0,
                           "I cannot determine the script."))
  {
    var s := "I cannot determine the script.";
    assert forall k :: 0 <= k < |s| ==> s[k] != '{';
    assert IndexOf(s, '{') == None;
  }

  /**
   * An answer with prose around its JSON object: the object alone is
   * parsed, and the row inserted for it carries the model's own confidence
   * and texts; an object that does not parse is an error.
   */
  lemma ProseAroundJson(prefix: string, body: string, suffix: string, parse: string -> Option<AnalysisResult>,
                        preview: string, script: Option<AncientScript>, user: Option<User>, sharePublic: bool)
    requires '{' !in prefix && '}' !in suffix
    ensures var r := Gemini.ParseAnswer(prefix + "{" + body + "}" + suffix, parse);
      && (parse("{" + body + "}").None? ==> r == Err(JsonSyntaxError))
      && (parse("{" + body + "}").Some? ==>
            && r == Ok(parse("{" + body + "}").value)
            && TranslationRow(r.value, preview, script, user, sharePublic).confidenceScore == r.value.confidence
            && TranslationRow(r.value, preview, script, user, sharePublic).translatedText == r.value.translation)
  {
    var answer := prefix + "{" + body + "}" + suffix;
    Gemini.JsonSliceOfObject(prefix, body, suffix);
    assert Gemini.IsBraceMatch(answer, Gemini.BraceMatch(answer).value.0, Gemini.BraceMatch(answer).value.1);
  }
}

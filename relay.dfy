/** The relay server (api/server.js): the `/health` response and the
    `/api/summarize-med` handler. The Gemini call is a parameter of the
    handler, a function from the request the handler sends to the outcome the
    SDK delivers; the handler's own logic is validation, prompt construction,
    the choice of response text and the mapping of failures. */
module Relay {
  import opened JsValues
  import opened JsStrings

  /** The JSON bodies the relay sends. */
  datatype Body =
    | HealthBody(ok: bool)
    | TextBody(text: string)
    | ErrorBody(error: string)
    | FailureBody(error: string, details: string)

  datatype HttpResponse = HttpResponse(status: nat, body: Body)

  /** What the handler passes to `ai.models.generateContent`: the model and a
      single user turn holding the prompt. */
  datatype GenRequest = GenRequest(model: string, role: string, prompt: string)

  /** The SDK response: the `text` property and the value of
      `response.text()`, each possibly absent. */
  datatype GenResponse = GenResponse(text: Option<string>, responseText: Option<string>)

  /** How the awaited Gemini call ends. */
  datatype GenOutcome = Generated(resp: GenResponse) | GenFailed(err: Thrown)

  /** One request handled: what was sent to Gemini (nothing when validation
      rejects the request) and the HTTP response. */
  datatype Exchange = Exchange(sent: Option<GenRequest>, response: HttpResponse)

  const GeminiModel: string := "gemini-3-flash-preview"
  const MissingOcrText: string := "Missing ocrText"
  const GeminiFailed: string := "Gemini call failed"

  /** `GET /health`. */
  function Health(): (r: HttpResponse)
    ensures r.status == 200 && r.body.HealthBody? && r.body.ok
  {
    HttpResponse(200, HealthBody(true))
  }

  /** The prompt template up to and including the opening delimiter, as it
      stands after the template has been trimmed. The first line is written
      as two literals: the verifier does not see the characters of a long
      literal, and `Prompt` needs its first one. */
  const PromptHead: string :=
    "You are helping a patient" + " understand a prescription.\n"
    + "\n"
    + "    The following text comes from OCR of a handwritten or printed prescription.\n"
    + "    It may be messy or inaccurate.\n"
    + "\n"
    + "    Write a clear, patient-friendly explanation that covers:\n"
    + "    - What medication(s) this appears to be\n"
    + "    - How the patient should take it (if stated)\n"
    + "    - What is unclear or should be confirmed with a pharmacist or doctor\n"
    + "\n"
    + "    Do NOT invent details that are not present.\n"
    + "    Write in plain English for a non-medical audience.\n"
    + "\n"
    + "    OCR TEXT:\n"
    + "    \"\"\""

  const Delimiter: string := "\"\"\""

  /** The template literal before `.trim()`: it opens with a newline and the
      indentation of its first line, and closes with a newline and the
      indentation of the closing backtick. */
  function PromptTemplate(ocrText: string): string {
    "\n    " + PromptHead + ocrText + Delimiter + "\n    "
  }

  /** The prompt sent to Gemini: the trimmed template. Whatever the text, it
      is the fixed head, the text verbatim, and the closing delimiter, and it
      neither starts nor ends with whitespace. */
  function Prompt(ocrText: string): (p: string)
    ensures p == PromptHead + ocrText + Delimiter
    ensures IsTrimmed(p)
  {
    var x := PromptHead + ocrText + Delimiter;
    assert |PromptHead| > 0;
    assert PromptHead[0] == 'Y';
    assert x[0] == PromptHead[0];
    assert x[|x| - 1] == Delimiter[2] == '"';
    assert AllWs("\n    ");
    assert PromptTemplate(ocrText) == "\n    " + x + "\n    ";
    TrimWrapped("\n    ", x, "\n    ");
    Trim(PromptTemplate(ocrText))
  }

  /** The text between the head and the closing delimiter of a prompt. */
  function EmbeddedText(p: string): string
    requires |p| >= |PromptHead| + |Delimiter|
  {
    p[|PromptHead|..|p| - |Delimiter|]
  }

  /** The OCR text can be read back from the prompt: the prompt embeds it
      verbatim and nothing else varies. */
  lemma PromptEmbedsText(ocrText: string)
    ensures |Prompt(ocrText)| >= |PromptHead| + |Delimiter|
    ensures EmbeddedText(Prompt(ocrText)) == ocrText
  {
    var p := Prompt(ocrText);
    assert p[|PromptHead|..|p| - |Delimiter|] == ocrText;
  }

  /** Different texts give different prompts. */
  lemma PromptInjective(a: string, b: string)
    requires Prompt(a) == Prompt(b)
    ensures a == b
  {
    PromptEmbedsText(a);
    PromptEmbedsText(b);
  }

  /** `resp?.text || resp?.response?.text?.() || ""`. */
  function ResponseText(resp: GenResponse): (t: string)
    ensures Truthy(resp.text) ==> t == resp.text.value
    ensures !Truthy(resp.text) && Truthy(resp.responseText) ==> t == resp.responseText.value
    ensures t == "" <==> !Truthy(resp.text) && !Truthy(resp.responseText)
  {
    OrElse(resp.text, OrElse(resp.responseText, ""))
  }

  /** `String(err?.message || err)`: the thrown value's message when it has a
      non-empty one, otherwise the thrown value as text. */
  function Details(err: Thrown): (d: string)
    ensures Truthy(MessageOf(err)) ==> d == MessageOf(err).value
    ensures !Truthy(MessageOf(err)) ==> d == Stringify(err)
    ensures err.ErrorObject? && err.message != "" ==> d == err.message
    ensures err.NonError? && !Truthy(err.messageProperty) ==> d == err.shown
    ensures err.ErrorObject? && (err.name != "" || err.message != "") ==> d != ""
  {
    OrElse(MessageOf(err), Stringify(err))
  }

  /** `POST /api/summarize-med`. `ocrText` is the request body's field (absent
      for a missing body or field, and for a falsy value); `generate` is the
      Gemini call. */
  function SummarizeMed(ocrText: Option<string>, generate: GenRequest -> GenOutcome): (x: Exchange)
    ensures var text := if ocrText.Some? then ocrText.value else "";
      && (x.sent.None? <==> AllWs(text))
      && (AllWs(text) ==> x.response == HttpResponse(400, ErrorBody(MissingOcrText)))
      && (x.sent.Some? ==>
            && x.sent.value == GenRequest(GeminiModel, "user", PromptHead + Trim(text) + Delimiter)
            && Trim(text) != "" && IsTrimmed(Trim(text)))
    ensures x.sent.Some? ==>
      match generate(x.sent.value)
      case Generated(resp) => x.response == HttpResponse(200, TextBody(ResponseText(resp)))
      case GenFailed(err) => x.response == HttpResponse(500, FailureBody(GeminiFailed, Details(err)))
    ensures x.response.status in {200, 400, 500}
  {
    var text := Trim(OrElse(ocrText, ""));
    TrimEmptyIff(OrElse(ocrText, ""));
    if text == "" then
      Exchange(None, HttpResponse(400, ErrorBody(MissingOcrText)))
    else
      var request := GenRequest(GeminiModel, "user", Prompt(text));
      match generate(request)
      case Generated(resp) =>
        Exchange(Some(request), HttpResponse(200, TextBody(ResponseText(resp))))
      case GenFailed(err) =>
        Exchange(Some(request), HttpResponse(500, FailureBody(GeminiFailed, Details(err))))
  }

  /** The text the relay embeds in the prompt is the posted text with only
      its surrounding whitespace removed: the posted text is whitespace, then
      the embedded text verbatim, then whitespace. */
  lemma SentTextIsTrimmed(ocrText: string, generate: GenRequest -> GenOutcome)
    requires !AllWs(ocrText)
    ensures SummarizeMed(Some(ocrText), generate).sent.Some?
    ensures var p := SummarizeMed(Some(ocrText), generate).sent.value.prompt;
      && |p| >= |PromptHead| + |Delimiter|
      && EmbeddedText(p) == Trim(ocrText) != ""
    ensures var e := Trim(ocrText); var k := |ocrText| - |TrimStart(ocrText)|;
      && k + |e| <= |ocrText|
      && ocrText[k..k + |e|] == e
      && AllWs(ocrText[..k]) && AllWs(ocrText[k + |e|..])
  {
    TrimEmptyIff(ocrText);
    SentPrompt(ocrText, generate);
    HeadEmbedsText(Trim(ocrText));
    TrimIsInfix(ocrText);
  }

  lemma SentPrompt(ocrText: string, generate: GenRequest -> GenOutcome)
    requires Trim(ocrText) != ""
    ensures SummarizeMed(Some(ocrText), generate).sent.Some?
    ensures SummarizeMed(Some(ocrText), generate).sent.value.prompt == PromptHead + Trim(ocrText) + Delimiter
  {
    TrimEmptyIff(ocrText);
  }

  lemma HeadEmbedsText(t: string)
    ensures var p := PromptHead + t + Delimiter;
      |p| >= |PromptHead| + |Delimiter| && EmbeddedText(p) == t
  {
    var p := PromptHead + t + Delimiter;
    assert p[|PromptHead|..|p| - |Delimiter|] == t;
  }
}

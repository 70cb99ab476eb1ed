/** The client and the relay together: the Summarize button posts the OCR text
    to `/api/summarize-med`, and the relay's HTTP response is what the
    client's `fetch` receives. */
module ClientRelay {
  import opened JsValues
  import opened JsStrings
  import opened Cleaner
  import opened Relay
  import opened Workflow

  /** The fields of a relay body as the client's `resp.json()` reads them. */
  function ReplyFields(b: Body): (d: ReplyData)
    ensures b.TextBody? ==> d.text == Some(b.text) && d.error.None?
    ensures b.ErrorBody? || b.FailureBody? ==> d.text.None? && d.error == Some(b.error)
    ensures b.FailureBody? ==> d.details == Some(b.details)
  {
    match b
    case HealthBody(_) => ReplyData(None, None, None)
    case TextBody(text) => ReplyData(None, None, Some(text))
    case ErrorBody(error) => ReplyData(Some(error), None, None)
    case FailureBody(error, details) => ReplyData(Some(error), Some(details), None)
  }

  /** What `fetch` resolves to for a relay response: `resp.ok` holds for the
      2xx statuses. */
  function Received(r: HttpResponse): (o: SummarizeOutcome)
    ensures o.Replied? && (o.ok <==> 200 <= r.status < 300) && o.data == ReplyFields(r.body)
  {
    Replied(200 <= r.status < 300, ReplyFields(r.body))
  }

  /** How the client shows each relay response to a request that reached
      Gemini: the generated text (or "(No response)") with no error, or
      "Error: Gemini call failed" with no explanation. */
  lemma RelayReplyShown(t: State, ocrText: string, generate: GenRequest -> GenOutcome)
    requires Inv(t) && t.isSummarizing
    requires SummarizeMed(Some(ocrText), generate).sent.Some?
    ensures var x := SummarizeMed(Some(ocrText), generate);
      var u := Step(t, SummarizeDone(Received(x.response)));
      && !u.isSummarizing
      && match generate(x.sent.value)
         case Generated(resp) =>
           && u.aiText == (if ResponseText(resp) != "" then ResponseText(resp) else NoResponse)
           && u.error == t.error
         case GenFailed(_) =>
           u.error == "Error: " + GeminiFailed && u.aiText == ""
  {
    var x := SummarizeMed(Some(ocrText), generate);
    var r := Received(x.response);
    SummarizeSettles(t, r);
    match generate(x.sent.value)
    case Generated(resp) =>
      assert r == Replied(true, ReplyData(None, None, Some(ResponseText(resp))));
    case GenFailed(err) =>
      assert r == Replied(false, ReplyData(Some(GeminiFailed), Some(Details(err)), None));
  }

  /** A summarize started from the page always reaches Gemini: the client
      only posts when its text is non-blank, so the relay never answers 400,
      and since the posted text is already clean, the prompt embeds it
      unchanged. When the reply arrives, a successful Gemini call shows its
      text (or "(No response)"), and a failed one shows
      "Error: Gemini call failed" with no explanation, whatever the details
      the relay attached. */
  lemma SummarizeRoundTrip(s: State, generate: GenRequest -> GenOutcome)
    requires Inv(s) && CanSummarize(s)
    ensures var t := Dispatch(s, Summarize);
      var x := SummarizeMed(Some(s.ocrText), generate);
      && t.isSummarizing && t.ocrText == s.ocrText
      && x.sent == Some(GenRequest(GeminiModel, "user", PromptHead + s.ocrText + Delimiter))
      && x.response.status != 400
      && var u := Step(t, SummarizeDone(Received(x.response)));
         && !u.isSummarizing
         && match generate(x.sent.value)
            case Generated(resp) =>
              && u.aiText == (if ResponseText(resp) != "" then ResponseText(resp) else NoResponse)
              && u.error == ""
            case GenFailed(_) =>
              u.error == "Error: " + GeminiFailed && u.aiText == ""
  {
    TrimEmptyIff(s.ocrText);
    TrimWrapped("", s.ocrText, "");
    assert "" + s.ocrText + "" == s.ocrText;
    assert Trim(s.ocrText) == s.ocrText;
    var t := Dispatch(s, Summarize);
    assert t == s.(isSummarizing := true, error := "", aiText := "");
    var x := SummarizeMed(Some(s.ocrText), generate);
    assert x.sent == Some(GenRequest(GeminiModel, "user", PromptHead + s.ocrText + Delimiter));
    StepInv(s, Summarize);
    RelayReplyShown(t, s.ocrText, generate);
  }
}

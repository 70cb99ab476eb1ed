/** The client's workflow (src/App.jsx): the seven pieces of component state,
    the two guards that enable the buttons, and the event handlers. Each async
    handler is split at its `await` into a start event (what runs before the
    call) and a finish event (what runs when the call settles, including the
    `finally` block). `Step` is the transition function of the state machine;
    the class `Session` holds the state in fields and updates them the way the
    handlers call their setters, and each of its methods is proved to perform
    the corresponding `Step`. */
module Workflow {
  import opened JsValues
  import opened JsStrings
  import opened Cleaner

  /** The browser's `File` object for the picked image; only its identity
      matters here. */
  datatype ImageFile = ImageFile(handle: nat)

  /** How `Tesseract.recognize` settles: with a result whose `data.text` may
      be absent, or by throwing. */
  datatype OcrOutcome = Recognized(text: Option<string>) | OcrThrew(err: Thrown)

  /** The parsed JSON body of the relay's reply (all fields absent when the
      body does not parse). */
  datatype ReplyData = ReplyData(error: Option<string>, details: Option<string>, text: Option<string>)

  /** How the summarize request settles: a reply (with `resp.ok`) or a thrown
      `fetch`. */
  datatype SummarizeOutcome = Replied(ok: bool, data: ReplyData) | FetchThrew(err: Thrown)

  /** What a settled summarize request puts on screen. */
  datatype Shown = Explanation(text: string) | ErrorMessage(message: string)

  const NoResponse: string := "(No response)"
  const SummarizeFailed: string := "Summarize failed"

  /** The component state. */
  datatype State = State(
    imageFile: Option<ImageFile>,
    isOcrRunning: bool,
    progress: int,
    ocrText: string,
    error: string,
    aiText: string,
    isSummarizing: bool)

  /** The user actions and async completions the component reacts to. */
  datatype Event =
    | PickFile(file: Option<ImageFile>)
    | Clear
    | RunOcr
    | OcrProgress(percent: int)
    | OcrDone(outcome: OcrOutcome)
    | Summarize
    | SummarizeDone(reply: SummarizeOutcome)

  const Initial: State := State(None, false, 0, "", "", "", false)

  /** `canRunOcr`. */
  predicate CanRunOcr(s: State) {
    s.imageFile.Some? && !s.isOcrRunning
  }

  /** `canSummarize`. */
  predicate CanSummarize(s: State) {
    Trim(s.ocrText) != "" && !s.isSummarizing
  }

  /** `resetOutputs`. */
  function Reset(s: State): State {
    s.(error := "", progress := 0, ocrText := "", aiText := "")
  }

  /** `result?.data?.text ?? ""`. */
  function RawText(text: Option<string>): string {
    if text.Some? then text.value else ""
  }

  /** The `try`/`catch` after the summarize `fetch`: a reply that is not ok
      is thrown as `new Error(data.error || data.details || "Summarize
      failed")` and shown through `String(e)`; an ok reply shows `data.text
      || "(No response)"`. */
  function SummaryShown(reply: SummarizeOutcome): (r: Shown)
    ensures reply.Replied? ==> (r.Explanation? <==> reply.ok)
    ensures r.Explanation? ==> r.text != ""
    ensures reply.Replied? && reply.ok && Truthy(reply.data.text) ==> r.text == reply.data.text.value
    ensures reply.Replied? && reply.ok && !Truthy(reply.data.text) ==> r.text == NoResponse
    ensures reply.Replied? && !reply.ok ==>
      r.message == "Error: " + OrElse(reply.data.error, OrElse(reply.data.details, SummarizeFailed))
    ensures reply.FetchThrew? ==> r == ErrorMessage(Stringify(reply.err))
  {
    match reply
    case Replied(ok, data) =>
      if !ok then
        ErrorMessage(Stringify(ErrorObject("Error", OrElse(data.error, OrElse(data.details, SummarizeFailed)))))
      else
        Explanation(OrElse(data.text, NoResponse))
    case FetchThrew(err) => ErrorMessage(Stringify(err))
  }

  /** What each handler does to the state. */
  function Step(s: State, e: Event): State {
    match e
    case PickFile(file) => Reset(s).(imageFile := file)
    case Clear => Reset(s).(imageFile := None)
    case RunOcr =>
      if s.imageFile.None? then s
      else s.(isOcrRunning := true, error := "", progress := 0, ocrText := "", aiText := "")
    case OcrProgress(percent) => s.(progress := percent)
    case OcrDone(outcome) =>
      var settled :=
        match outcome
        case Recognized(text) => s.(ocrText := ShownText(RawText(text)))
        case OcrThrew(err) => s.(error := Stringify(err));
      settled.(isOcrRunning := false)
    case Summarize =>
      if Trim(s.ocrText) == "" then s
      else s.(isSummarizing := true, error := "", aiText := "")
    case SummarizeDone(reply) =>
      var settled :=
        match SummaryShown(reply)
        case Explanation(text) => s.(aiText := text)
        case ErrorMessage(message) => s.(error := message);
      settled.(isSummarizing := false)
  }

  /** What the rendered page does with an event: the Run OCR and Summarize
      buttons are disabled unless their guard holds, so pressing a disabled
      one does nothing. */
  function Dispatch(s: State, e: Event): State {
    match e
    case RunOcr => if CanRunOcr(s) then Step(s, e) else s
    case Summarize => if CanSummarize(s) then Step(s, e) else s
    case _ => Step(s, e)
  }

  /** The invariant of the component: while OCR runs there is no OCR text;
      while a summarize is in flight there is no explanation; and any OCR
      text is a clean text. */
  predicate Inv(s: State) {
    && (s.isOcrRunning ==> s.ocrText == "")
    && (s.isSummarizing ==> s.aiText == "")
    && (s.ocrText != "" ==> IsClean(s.ocrText))
  }

  /** Runs a sequence of events through the page. */
  function Run(s: State, es: seq<Event>): State
    decreases |es|
  {
    if |es| == 0 then s else Run(Dispatch(s, es[0]), es[1..])
  }

  // ---------------------------------------------------------------------
  // Properties of the transitions

  lemma InitialInv()
    ensures Inv(Initial) && !CanRunOcr(Initial) && !CanSummarize(Initial)
  {
  }

  /** Every handler keeps the invariant. */
  lemma StepInv(s: State, e: Event)
    requires Inv(s)
    ensures Inv(Step(s, e)) && Inv(Dispatch(s, e))
  {
    if e.OcrDone? && e.outcome.Recognized? {
      var shown := ShownText(RawText(e.outcome.text));
      assert Step(s, e).ocrText == shown;
    }
  }

  /** Every state the page can reach keeps the invariant. */
  lemma {:induction false} RunInv(s: State, es: seq<Event>)
    requires Inv(s)
    ensures Inv(Run(s, es))
    decreases |es|
  {
    if |es| > 0 {
      StepInv(s, es[0]);
      RunInv(Dispatch(s, es[0]), es[1..]);
    }
  }

  /** Under the invariant, Summarize is enabled exactly when there is OCR
      text and no summarize is in flight. */
  lemma CanSummarizeIff(s: State)
    requires Inv(s)
    ensures CanSummarize(s) <==> s.ocrText != "" && !s.isSummarizing
  {
    if s.ocrText != "" {
      TrimWrapped("", s.ocrText, "");
      assert "" + s.ocrText + "" == s.ocrText;
    }
  }

  /** Picking a file or clearing drops every output; clearing, or picking no
      file, leaves no image selected; the busy flags are untouched. */
  lemma ResetOnPickOrClear(s: State, e: Event)
    requires e.PickFile? || e.Clear?
    ensures var t := Step(s, e);
      && t.error == "" && t.progress == 0 && t.ocrText == "" && t.aiText == ""
      && t.imageFile == (if e.PickFile? then e.file else None)
      && t.isOcrRunning == s.isOcrRunning && t.isSummarizing == s.isSummarizing
      && !CanSummarize(t)
  {
    TrimEmptyIff("");
  }

  /** Starting OCR without an image changes nothing; with one, it marks OCR
      running and clears the error, the progress and both texts. */
  lemma RunOcrStarts(s: State)
    ensures s.imageFile.None? ==> Step(s, RunOcr) == s
    ensures s.imageFile.Some? ==> var t := Step(s, RunOcr);
      t.isOcrRunning && t.error == "" && t.progress == 0 && t.ocrText == "" && t.aiText == ""
      && t.imageFile == s.imageFile && t.isSummarizing == s.isSummarizing
  {
  }

  /** Pressing Run OCR while OCR runs is a no-op, whatever else holds. */
  lemma RunOcrWhileRunning(s: State)
    requires s.isOcrRunning
    ensures Dispatch(s, RunOcr) == s
  {
  }

  /** Pressing Summarize while a summarize is in flight is a no-op. */
  lemma SummarizeWhileSummarizing(s: State)
    requires s.isSummarizing
    ensures Dispatch(s, Summarize) == s
  {
  }

  /** When OCR settles, it no longer runs; on success the OCR text is the
      cleaned text (or the placeholder), which is non-blank, so Summarize is
      enabled unless a summarize is in flight; on failure the error is the
      thrown value as text and the OCR text stays empty. */
  lemma OcrSettles(s: State, outcome: OcrOutcome)
    requires Inv(s) && s.isOcrRunning
    ensures var t := Step(s, OcrDone(outcome));
      && !t.isOcrRunning
      && (outcome.Recognized? ==>
            && t.ocrText == ShownText(RawText(outcome.text))
            && t.ocrText != "" && IsClean(t.ocrText)
            && (CanSummarize(t) <==> !t.isSummarizing)
            && t.error == s.error)
      && (outcome.OcrThrew? ==>
            && t.error == Stringify(outcome.err) && t.ocrText == "")
  {
    var t := Step(s, OcrDone(outcome));
    StepInv(s, OcrDone(outcome));
    CanSummarizeIff(t);
  }

  /** An OCR failure raised as an `Error` with a name or a message always
      leaves a non-empty error on screen. */
  lemma OcrFailureShowsError(s: State, name: string, message: string)
    requires name != "" || message != ""
    ensures Step(s, OcrDone(OcrThrew(ErrorObject(name, message)))).error != ""
  {
  }

  /** Summarize with blank OCR text changes nothing; otherwise it marks a
      summarize in flight and clears the error and the explanation. */
  lemma SummarizeStarts(s: State)
    ensures AllWs(s.ocrText) ==> Step(s, Summarize) == s
    ensures !AllWs(s.ocrText) ==> var t := Step(s, Summarize);
      t.isSummarizing && t.error == "" && t.aiText == ""
      && t.ocrText == s.ocrText && t.isOcrRunning == s.isOcrRunning
  {
    TrimEmptyIff(s.ocrText);
  }

  /** When the summarize request settles, none is in flight; an ok reply puts
      its text, or "(No response)", in the explanation; anything else puts an
      error on screen and leaves the explanation empty. */
  lemma SummarizeSettles(s: State, reply: SummarizeOutcome)
    requires Inv(s) && s.isSummarizing
    ensures var t := Step(s, SummarizeDone(reply));
      && !t.isSummarizing
      && (reply.Replied? && reply.ok ==>
            t.aiText == OrElse(reply.data.text, NoResponse) && t.aiText != "" && t.error == s.error)
      && (!(reply.Replied? && reply.ok) ==>
            t.aiText == "" && t.error == SummaryShown(reply).message)
      && (reply.Replied? && !reply.ok ==> t.error != "")
  {
  }

  /** Picking an image and running OCR on it to the end shows the cleaned
      text and enables Summarize, whatever state the page was in, provided no
      OCR or summarize was in flight. */
  lemma PickThenOcr(s: State, f: ImageFile, text: Option<string>)
    requires Inv(s) && !s.isOcrRunning && !s.isSummarizing
    ensures var t := Run(s, [PickFile(Some(f)), RunOcr, OcrDone(Recognized(text))]);
      && t.ocrText == ShownText(RawText(text)) && t.error == "" && t.aiText == ""
      && t.imageFile == Some(f) && CanRunOcr(t) && CanSummarize(t)
  {
    var s1 := Dispatch(s, PickFile(Some(f)));
    var s2 := Dispatch(s1, RunOcr);
    var s3 := Dispatch(s2, OcrDone(Recognized(text)));
    var es := [PickFile(Some(f)), RunOcr, OcrDone(Recognized(text))];
    assert es[1..][1..][1..] == [];
    assert Run(s3, []) == s3;
    assert Run(s2, es[1..][1..]) == s3;
    assert Run(s1, es[1..]) == s3;
    StepInv(s, PickFile(Some(f)));
    StepInv(s1, RunOcr);
    OcrSettles(s2, Recognized(text));
  }

  // ---------------------------------------------------------------------
  // The component as an object

  /** The component's state held in fields, each handler a method that calls
      the setters in the order the source does. */
  class Session {
    var imageFile: Option<ImageFile>
    var isOcrRunning: bool
    var progress: int
    var ocrText: string
    var error: string
    var aiText: string
    var isSummarizing: bool

    ghost function Snapshot(): State
      reads this
    {
      State(imageFile, isOcrRunning, progress, ocrText, error, aiText, isSummarizing)
    }

    ghost predicate Valid()
      reads this
    {
      Inv(Snapshot())
    }

    /** The initial `useState` values. */
    constructor ()
      ensures Valid() && Snapshot() == Initial
    {
      imageFile := None;
      isOcrRunning := false;
      progress := 0;
      ocrText := "";
      error := "";
      aiText := "";
      isSummarizing := false;
    }

    /** Whether the Run OCR button is enabled (`canRunOcr`). */
    predicate RunOcrEnabled()
      reads this
      ensures RunOcrEnabled() == CanRunOcr(Snapshot())
    {
      imageFile.Some? && !isOcrRunning
    }

    /** Whether the Summarize button is enabled (`canSummarize`). */
    predicate SummarizeEnabled()
      reads this
      ensures SummarizeEnabled() == CanSummarize(Snapshot())
    {
      Trim(ocrText) != "" && !isSummarizing
    }

    method ResetOutputs()
      modifies this
      ensures Snapshot() == Reset(old(Snapshot()))
    {
      error := "";
      progress := 0;
      ocrText := "";
      aiText := "";
    }

    /** `onPickFile`, with the first selected file or none. */
    method PickFile(file: Option<ImageFile>)
      requires Valid()
      modifies this
      ensures Valid() && Snapshot() == Step(old(Snapshot()), Event.PickFile(file))
    {
      ResetOutputs();
      if file.None? {
        imageFile := None;
        return;
      }
      imageFile := file;
    }

    /** `onClear`. */
    method Clear()
      requires Valid()
      modifies this
      ensures Valid() && Snapshot() == Step(old(Snapshot()), Event.Clear)
    {
      ResetOutputs();
      imageFile := None;
    }

    /** `runOcr` up to the `await`: returns the image handed to the OCR
      engine, or none when the handler returned early. */
    method StartOcr() returns (image: Option<ImageFile>)
      requires Valid()
      modifies this
      ensures Valid() && Snapshot() == Step(old(Snapshot()), RunOcr)
      ensures image == old(imageFile)
    {
      image := imageFile;
      if imageFile.None? {
        return;
      }
      isOcrRunning := true;
      error := "";
      progress := 0;
      ocrText := "";
      aiText := "";
    }

    /** The OCR engine's progress callback, with the rounded percentage. */
    method ReportProgress(percent: int)
      requires Valid() && isOcrRunning
      modifies this
      ensures Valid() && Snapshot() == Step(old(Snapshot()), OcrProgress(percent))
    {
      progress := percent;
    }

    /** `runOcr` after the `await`: clean the recognised text or show the
      failure, then clear the running flag. */
    method FinishOcr(outcome: OcrOutcome)
      requires Valid() && isOcrRunning
      modifies this
      ensures Valid() && Snapshot() == Step(old(Snapshot()), OcrDone(outcome))
    {
      match outcome {
        case Recognized(text) =>
          var raw := RawText(text);
          var cleaned := Clean(raw);
          ocrText := if cleaned == "" then NoTextPlaceholder else cleaned;
        case OcrThrew(err) =>
          error := Stringify(err);
      }
      isOcrRunning := false;
      StepInv(old(Snapshot()), OcrDone(outcome));
    }

    /** `summarizeMedication` up to the `await`: returns the OCR text posted
      to the relay, or none when the handler returned early. */
    method StartSummarize() returns (posted: Option<string>)
      requires Valid()
      modifies this
      ensures Valid() && Snapshot() == Step(old(Snapshot()), Summarize)
      ensures posted.Some? <==> !AllWs(old(ocrText))
      ensures posted.Some? ==> posted.value == old(ocrText)
    {
      TrimEmptyIff(ocrText);
      if Trim(ocrText) == "" {
        return None;
      }
      isSummarizing := true;
      error := "";
      aiText := "";
      posted := Some(ocrText);
    }

    /** `summarizeMedication` after the `await`: show the explanation or the
      error, then clear the in-flight flag. */
    method FinishSummarize(reply: SummarizeOutcome)
      requires Valid() && isSummarizing
      modifies this
      ensures Valid() && Snapshot() == Step(old(Snapshot()), SummarizeDone(reply))
    {
      match SummaryShown(reply) {
        case Explanation(text) => aiText := text;
        case ErrorMessage(message) => error := message;
      }
      isSummarizing := false;
    }

    /** The Run OCR button: does nothing while disabled. */
    method PressRunOcr() returns (image: Option<ImageFile>)
      requires Valid()
      modifies this
      ensures Valid() && Snapshot() == Dispatch(old(Snapshot()), RunOcr)
      ensures image.Some? <==> CanRunOcr(old(Snapshot()))
    {
      if RunOcrEnabled() {
        image := StartOcr();
      } else {
        image := None;
      }
    }

    /** The Summarize button: does nothing while disabled. */
    method PressSummarize() returns (posted: Option<string>)
      requires Valid()
      modifies this
      ensures Valid() && Snapshot() == Dispatch(old(Snapshot()), Summarize)
      ensures posted.Some? <==> CanSummarize(old(Snapshot()))
    {
      TrimEmptyIff(ocrText);
      if SummarizeEnabled() {
        posted := StartSummarize();
      } else {
        posted := None;
      }
    }
  }
}

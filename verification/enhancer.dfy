/**
  The AI image enhancer: pick a photo, choose an intensity, send it with a
  prompt to the image model, show the first image part that comes back, and
  save it to the library. The key check, the model call, the decoding of the
  returned data URL and the backend are inputs.
 */
module Enhancer {
  import opened Common
  import Text
  import opened Backend
  import opened Remote
  import Classify

  /** The intensity slider's range. */
  type Intensity = i: int | 5 <= i <= 100 witness 75

  const DefaultIntensity: Intensity := 75

  const LoginMessage: string := "Please log in to save."
  const FallbackError: string := "An unexpected error occurred."

  const PromptHead: string := "Task: Professional AI Image Enhancement. Intensity Level: "
  const PromptTail: string :=
    "%. Instructions: Upscale and restore details, sharpen edges, and remove noise. Return a high-quality result."

  /** What the error box shows: the key notice, the access-denied notice, or
      a `Processing failed:` line. */
  datatype ErrorView = KeyRequired | AccessDenied | ProcessingFailed(text: string)

  datatype State = State(
    selectedFile: Option<File>,
    previewUrl: Option<string>,
    enhancedUrl: Option<string>,
    enhancedBlob: Option<Blob>,
    isProcessing: bool,
    intensity: Intensity,
    isDone: bool,
    isSaved: bool,
    isLoggedIn: bool,
    error: Option<ErrorView>,
    needsKeySelection: bool)

  const Initial: State :=
    State(None, None, None, None, false, DefaultIntensity, false, false, false, None, false)

  /** The prompt sent with the photo, carrying the intensity as a percentage. */
  function Prompt(i: Intensity): string {
    PromptHead + Text.Decimal(i) + PromptTail
  }

  /** The prompt determines the intensity: the digits after the fixed head
      read back as the slider value, and two intensities never share a prompt. */
  lemma PromptCarriesIntensity(i: Intensity, j: Intensity)
    ensures Text.DecimalValue(Prompt(i)[|PromptHead|..|PromptHead| + |Text.Decimal(i)|]) == i
    ensures Prompt(i) == Prompt(j) ==> i == j
  {
    var di, dj := Text.Decimal(i), Text.Decimal(j);
    assert Prompt(i)[|PromptHead|..|PromptHead| + |di|] == di;
    Text.DecimalRoundTrip(i);
    if Prompt(i) == Prompt(j) {
      assert |di| == |dj|;
      assert di == Prompt(i)[|PromptHead|..|PromptHead| + |di|];
      assert dj == Prompt(j)[|PromptHead|..|PromptHead| + |dj|];
      Text.DecimalRoundTrip(j);
    }
  }

  /** `checkKeyStatus`: with the studio host present, the key notice follows
      whether a key is selected; without it nothing changes. */
  function CheckKeyStatus(s: State, host: KeyHost): (t: State)
    ensures host.NoHost? ==> t == s
    ensures host.Host? ==> t.needsKeySelection == !host.hasKey
    ensures t == s.(needsKeySelection := t.needsKeySelection)
  {
    match host
    case NoHost => s
    case Host(k) => s.(needsKeySelection := !k)
  }

  /** The component mounting: the initial state after the first key check. */
  function Mount(host: KeyHost): (t: State)
    ensures t.needsKeySelection <==> host == Host(false)
    ensures t.selectedFile.None? && !t.isProcessing && t.intensity == DefaultIntensity
  {
    CheckKeyStatus(Initial, host)
  }

  /** The file input's change event: a new photo discards the previous
      result, the saved mark and the error, then re-checks the key. */
  function PickFile(s: State, file: Option<File>, preview: string, host: KeyHost): (t: State)
    ensures file.None? ==> t == s
    ensures file.Some? ==> t.selectedFile == file && t.previewUrl == Some(preview)
    ensures file.Some? ==> t.enhancedUrl.None? && t.enhancedBlob.None? && !t.isDone && !t.isSaved && t.error.None?
    ensures file.Some? && host.NoHost? ==> t.needsKeySelection == s.needsKeySelection
    ensures file.Some? && host.Host? ==> t.needsKeySelection == !host.hasKey
    ensures t.isProcessing == s.isProcessing && t.intensity == s.intensity && t.isLoggedIn == s.isLoggedIn
  {
    if file.None? then s
    else CheckKeyStatus(s.(selectedFile := file, previewUrl := Some(preview), enhancedUrl := None,
                           enhancedBlob := None, isDone := false, isSaved := false, error := None), host)
  }

  /** The run handler up to the model call. Without a photo it does nothing;
      when the host reports no key it shows the key notice and stops before
      processing; otherwise it starts processing and sends the photo with the
      prompt. */
  function StartEnhance(s: State, host: KeyHost): (l: Launch<State>)
    ensures s.selectedFile.None? ==> l == Launch(s, None)
    ensures s.selectedFile.Some? && host == Host(false) ==>
      l.request.None? && l.state == s.(needsKeySelection := true, error := Some(KeyRequired))
    ensures s.selectedFile.Some? && host != Host(false) ==>
      l.state == s.(isProcessing := true, error := None) &&
      l.request == Some(Request(s.selectedFile.value.mimeType, Prompt(s.intensity)))
  {
    if s.selectedFile.None? then Launch(s, None)
    else if host == Host(false) then Launch(s.(needsKeySelection := true, error := Some(KeyRequired)), None)
    else Launch(s.(isProcessing := true, error := None),
                Some(Request(s.selectedFile.value.mimeType, Prompt(s.intensity))))
  }

  /** The `Processing failed:` line for a caught message (`msg || fallback`). */
  function FailureText(message: string): (text: string)
    ensures message != [] ==> text == "Processing failed: " + message
    ensures message == [] ==> text == "Processing failed: " + FallbackError
  {
    "Processing failed: " + (if message == [] then FallbackError else message)
  }

  /** The run handler after the model call: an image part becomes the result
      (decoded into a blob of `decodedSize` bytes with the part's type); any
      failure is classified; processing always stops. */
  function FinishEnhance(s: State, outcome: CallOutcome, decodedSize: nat): (t: State)
    ensures !t.isProcessing
    ensures t.selectedFile == s.selectedFile && t.intensity == s.intensity && t.isSaved == s.isSaved
    ensures match Scan(outcome, Classify.EnhancerNoImageMessage)
      case Found(d) =>
        t.isDone && t.enhancedUrl == Some(DataUrl(d)) && t.enhancedBlob == Some(Blob(decodedSize, d.mimeType)) &&
        t.error == s.error && t.needsKeySelection == s.needsKeySelection
      case Failure(m) =>
        t.isDone == s.isDone && t.enhancedUrl == s.enhancedUrl && t.enhancedBlob == s.enhancedBlob &&
        (Classify.IsEnhancerAuthError(m) ==> t.needsKeySelection && t.error == Some(AccessDenied)) &&
        (!Classify.IsEnhancerAuthError(m) ==>
          t.needsKeySelection == s.needsKeySelection && t.error == Some(ProcessingFailed(FailureText(m))))
  {
    var u := s.(isProcessing := false);
    match Scan(outcome, Classify.EnhancerNoImageMessage)
    case Found(d) =>
      u.(enhancedBlob := Some(Blob(decodedSize, d.mimeType)), enhancedUrl := Some(DataUrl(d)), isDone := true)
    case Failure(m) =>
      if Classify.IsEnhancerAuthError(m) then u.(needsKeySelection := true, error := Some(AccessDenied))
      else u.(error := Some(ProcessingFailed(FailureText(m))))
  }

  /** A reply without any image part ends in the generic failure line, never
      in the key notice. */
  lemma NoImagePartIsGenericFailure(s: State, r: Response, decodedSize: nat)
    requires FirstImage(r).None?
    ensures var t := FinishEnhance(s, Replied(r), decodedSize);
      t.error == Some(ProcessingFailed("Processing failed: " + Classify.EnhancerNoImageMessage)) &&
      t.needsKeySelection == s.needsKeySelection && t.isDone == s.isDone
  {
    Classify.EnhancerNoImageIsNotAuth();
  }

  /** The first image part of the first candidate is the one shown, whatever
      parts follow it. */
  lemma FirstImagePartShown(s: State, parts: seq<Part>, later: seq<Part>, decodedSize: nat)
    requires FirstImageIndex(parts).Some?
    ensures var d := parts[FirstImageIndex(parts).value].inlineData.value;
      var r := Response(Some([Candidate(Some(Content(Some(parts + later))))]));
      var t := FinishEnhance(s, Replied(r), decodedSize);
      t.isDone && t.enhancedUrl == Some(DataUrl(d))
  {
    var r := Response(Some([Candidate(Some(Content(Some(parts + later))))]));
    assert CandidateParts(r) == parts + later;
    LaterPartsIgnored(parts, later);
    assert (parts + later)[FirstImageIndex(parts).value] == parts[FirstImageIndex(parts).value];
  }

  /** An auth-looking failure turns the run button off and asks for a key. */
  lemma AuthFailureAsksForKey(s: State, message: string, decodedSize: nat)
    requires Classify.IsEnhancerAuthError(message)
    ensures var t := FinishEnhance(s, Threw(message), decodedSize);
      t.needsKeySelection && t.error == Some(AccessDenied) && !CanRun(t)
  {
  }

  /** The slider's change event: the shown result and the error go away,
      but the previous result blob stays. */
  function SetIntensity(s: State, v: Intensity): (t: State)
    ensures t.intensity == v && !t.isDone && t.enhancedUrl.None? && t.error.None?
    ensures t.enhancedBlob == s.enhancedBlob && t.selectedFile == s.selectedFile && t.isSaved == s.isSaved
    ensures t.needsKeySelection == s.needsKeySelection && t.isProcessing == s.isProcessing
    ensures t.previewUrl == s.previewUrl && t.isLoggedIn == s.isLoggedIn
  {
    s.(intensity := v, isDone := false, enhancedUrl := None, error := None)
  }

  /** The key dialog: outside the studio host nothing happens; a dialog that
      fails is only logged; a completed one clears the key notice and the
      error and, with a photo selected, runs again (with a fresh key check). */
  function OpenKeySelection(s: State, host: KeyHost, completed: bool, keyAfter: bool): (l: Launch<State>)
    ensures host.NoHost? || !completed ==> l == Launch(s, None)
    ensures host.Host? && completed && s.selectedFile.None? ==>
      l == Launch(s.(needsKeySelection := false, error := None), None)
    ensures host.Host? && completed && s.selectedFile.Some? ==>
      l == StartEnhance(s.(needsKeySelection := false, error := None), Host(keyAfter))
  {
    if host.NoHost? || !completed then Launch(s, None)
    else
      var t := s.(needsKeySelection := false, error := None);
      if t.selectedFile.Some? then StartEnhance(t, Host(keyAfter)) else Launch(t, None)
  }

  /** The saved size column. */
  function SizeLabel(i: Intensity): (size: string)
    ensures size == "Ultra HD" <==> i > 80
    ensures size != "Ultra HD" ==> size == "HD Enhanced"
  {
    if i > 80 then "Ultra HD" else "HD Enhanced"
  }

  /** What is uploaded: the result blob, or the original photo without one. */
  function SavePayload(s: State): (p: Option<Payload>)
    ensures s.enhancedBlob.Some? ==> p == Some(BlobData(s.enhancedBlob.value))
    ensures s.enhancedBlob.None? && s.selectedFile.Some? ==> p == Some(FileData(s.selectedFile.value))
    ensures p.None? <==> s.enhancedBlob.None? && s.selectedFile.None?
  {
    if s.enhancedBlob.Some? then Some(BlobData(s.enhancedBlob.value))
    else if s.selectedFile.Some? then Some(FileData(s.selectedFile.value))
    else None
  }

  /** `${userId}/${Date.now()}_restored_${name}`. */
  function SavePath(user: User, now: nat, file: File): string {
    StoragePath(user.id, now, "restored_" + file.name)
  }

  function SaveRow(s: State, user: User, publicUrl: string, date: string): ImageRow
    requires s.selectedFile.Some?
  {
    ImageRow(user.id, s.selectedFile.value.name, publicUrl, Enhanced, date, SizeLabel(s.intensity))
  }

  /** The save handler as written: the upload and insert replies are never
      read, so the photo is marked saved whatever they report. */
  function SaveToLibrary(s: State, session: Option<User>, now: nat, upload: Reply, publicUrl: string,
                         insert: Reply, date: string): (e: SaveEffect<State>)
    ensures s.selectedFile.None? ==> e == SaveEffect(s, [], None)
    ensures s.selectedFile.Some? && session.None? ==> e == SaveEffect(s, [], Some(LoginMessage))
    ensures s.selectedFile.Some? && session.Some? ==>
      e.calls == [Upload(SavePath(session.value, now, s.selectedFile.value), SavePayload(s).value),
                  InsertImage(SaveRow(s, session.value, publicUrl, date))] &&
      e.state == s.(isSaved := true) && e.alert.None?
  {
    if SavePayload(s).None? || s.selectedFile.None? then SaveEffect(s, [], None)
    else if session.None? then SaveEffect(s, [], Some(LoginMessage))
    else
      var user := session.value;
      SaveEffect(s.(isSaved := true),
                 [Upload(SavePath(user, now, s.selectedFile.value), SavePayload(s).value),
                  InsertImage(SaveRow(s, user, publicUrl, date))],
                 None)
  }

  /** As written, a rejected upload and a rejected insert still end with the
      photo marked saved and no alert. */
  lemma FailedSaveReportedAsSaved(s: State, user: User, now: nat, publicUrl: string, date: string, m1: string, m2: string)
    requires s.selectedFile.Some? && !s.isSaved
    ensures var e := SaveToLibrary(s, Some(user), now, Failed(m1), publicUrl, Failed(m2), date);
      e.state.isSaved && e.alert.None?
  {
  }

  /** The save handler with the replies checked, as the compressor does: an
      upload error stops before the insert, an insert error is reported, and
      only a fully successful save marks the photo saved. */
  function SaveToLibraryChecked(s: State, session: Option<User>, now: nat, upload: Reply, publicUrl: string,
                                insert: Reply, date: string): (e: SaveEffect<State>)
    ensures s.selectedFile.None? ==> e == SaveEffect(s, [], None)
    ensures s.selectedFile.Some? && session.None? ==> e == SaveEffect(s, [], Some(LoginMessage))
    ensures e.state == s.(isSaved := e.state.isSaved)
    ensures e.calls != [] ==> session.Some? && s.selectedFile.Some?
    ensures e.calls != [] ==>
      e.calls[0] == Upload(SavePath(session.value, now, s.selectedFile.value), SavePayload(s).value)
    ensures upload.Failed? ==> |e.calls| <= 1
  {
    if SavePayload(s).None? || s.selectedFile.None? then SaveEffect(s, [], None)
    else if session.None? then SaveEffect(s, [], Some(LoginMessage))
    else
      var user := session.value;
      var up := Upload(SavePath(user, now, s.selectedFile.value), SavePayload(s).value);
      match upload
      case Failed(m) => SaveEffect(s, [up], Some(m))
      case Done =>
        var ins := InsertImage(SaveRow(s, user, publicUrl, date));
        match insert
        case Failed(m) => SaveEffect(s, [up, ins], Some(m))
        case Done => SaveEffect(s.(isSaved := true), [up, ins], None)
  }

  /** With the replies checked, the photo is marked saved exactly when both
      calls succeed, and a failure is always shown. */
  lemma CheckedSaveOutcomes(s: State, user: User, now: nat, upload: Reply, publicUrl: string, insert: Reply, date: string)
    requires s.selectedFile.Some? && !s.isSaved
    ensures var e := SaveToLibraryChecked(s, Some(user), now, upload, publicUrl, insert, date);
      (e.state.isSaved <==> upload.Done? && insert.Done?) && (e.alert.None? <==> e.state.isSaved)
  {
  }

  /** Both handlers agree whenever the backend accepts both calls. */
  lemma CheckedAgreesOnSuccess(s: State, session: Option<User>, now: nat, publicUrl: string, date: string)
    ensures SaveToLibraryChecked(s, session, now, Done, publicUrl, Done, date) ==
            SaveToLibrary(s, session, now, Done, publicUrl, Done, date)
  {
  }

  /** The save handler alone, run after the slider moved, would still upload
      the earlier result blob under the new size label. The page does not
      offer it: the slider clears the done flag, and the save button is only
      rendered for a finished result. */
  lemma IntensityChangeKeepsSavedBlob(s: State, v: Intensity, user: User, now: nat, publicUrl: string, date: string)
    requires s.selectedFile.Some? && s.enhancedBlob.Some?
    ensures !CanSave(SetIntensity(s, v))
    ensures var e := SaveToLibrary(SetIntensity(s, v), Some(user), now, Done, publicUrl, Done, date);
      e.calls[0].payload == BlobData(s.enhancedBlob.value) &&
      e.calls[1].row.size == SizeLabel(v)
  {
  }

  /** The remove and restart buttons: everything about the photo goes, and
      the key is checked again. */
  function Clear(s: State, host: KeyHost): (t: State)
    ensures t.selectedFile.None? && t.previewUrl.None? && t.enhancedUrl.None? && t.enhancedBlob.None?
    ensures !t.isDone && !t.isSaved && t.error.None?
    ensures host.NoHost? ==> t.needsKeySelection == s.needsKeySelection
    ensures host.Host? ==> t.needsKeySelection == !host.hasKey
    ensures t.intensity == s.intensity && t.isProcessing == s.isProcessing && t.isLoggedIn == s.isLoggedIn
  {
    CheckKeyStatus(s.(selectedFile := None, previewUrl := None, enhancedUrl := None, enhancedBlob := None,
                      isDone := false, isSaved := false, error := None), host)
  }

  function SessionChanged(s: State, session: Option<User>): (t: State)
    ensures t.isLoggedIn <==> session.Some?
    ensures t == s.(isLoggedIn := t.isLoggedIn)
  {
    s.(isLoggedIn := session.Some?)
  }

  /** The run button is rendered. */
  predicate CanRun(s: State) {
    s.selectedFile.Some? && !s.isDone && !s.isProcessing && !s.needsKeySelection && s.error.None?
  }

  /** The save button is rendered and enabled. */
  predicate CanSave(s: State) {
    s.selectedFile.Some? && s.isDone && s.isLoggedIn && !s.isSaved
  }

  // -------------------------------------------------------------- events

  datatype Event =
    | Pick(file: Option<File>, preview: string)
    | Run
    | Answer(outcome: CallOutcome, decodedSize: nat)
    | Slide(v: Intensity)
    | KeyDialog(completed: bool, keyAfter: bool)
    | Save(user: Option<User>, now: nat, upload: Reply, publicUrl: string, insert: Reply, date: string)
    | ClearAll
    | Session(session: Option<User>)

  /** One event against a fixed host. */
  function Step(s: State, host: KeyHost, e: Event): State {
    match e
    case Pick(f, p) => PickFile(s, f, p, host)
    case Run => StartEnhance(s, host).state
    case Answer(o, n) => FinishEnhance(s, o, n)
    case Slide(v) => SetIntensity(s, v)
    case KeyDialog(c, k) => OpenKeySelection(s, host, c, k).state
    case Save(u, now, up, url, ins, date) => SaveToLibrary(s, u, now, up, url, ins, date).state
    case ClearAll => Clear(s, host)
    case Session(u) => SessionChanged(s, u)
  }

  function RunAll(s: State, host: KeyHost, events: seq<Event>): State
    decreases |events|
  {
    if events == [] then s else RunAll(Step(s, host, events[0]), host, events[1..])
  }

  /** A shown result always has its blob, and a saved mark always belongs to
      a selected photo. */
  predicate Inv(s: State) {
    (s.enhancedUrl.Some? <==> s.isDone) &&
    (s.isDone ==> s.enhancedBlob.Some?) &&
    (s.isSaved ==> s.selectedFile.Some?)
  }

  lemma MountInv(host: KeyHost)
    ensures Inv(Mount(host))
  {
  }

  lemma StepPreservesInv(s: State, host: KeyHost, e: Event)
    requires Inv(s)
    ensures Inv(Step(s, host, e))
  {
  }

  lemma {:induction false} RunPreservesInv(s: State, host: KeyHost, events: seq<Event>)
    requires Inv(s)
    ensures Inv(RunAll(s, host, events))
    decreases |events|
  {
    if events != [] {
      StepPreservesInv(s, host, events[0]);
      RunPreservesInv(Step(s, host, events[0]), host, events[1..]);
    }
  }

  /** Outside the studio host, once the key notice is up nothing clears it:
      picking, clearing and the key dialog all leave it, so the run button
      never returns. */
  lemma {:induction false} KeyNoticeStuckWithoutHost(s: State, events: seq<Event>)
    requires s.needsKeySelection
    ensures RunAll(s, NoHost, events).needsKeySelection
    ensures !CanRun(RunAll(s, NoHost, events))
    decreases |events|
  {
    if events != [] {
      var t := Step(s, NoHost, events[0]);
      assert t.needsKeySelection;
      KeyNoticeStuckWithoutHost(t, events[1..]);
    }
  }
}

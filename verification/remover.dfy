/**
  The background remover: pick a photo, ask the image model to cut out the
  subject, show the first image part that comes back, and save it to the
  library as a PNG. The model call, the decoding of the returned data URL
  and the backend are inputs.
 */
module Remover {
  import opened Common
  import Text
  import opened Backend
  import opened Remote
  import Classify

  const Prompt: string := "Task: Extract the main subject and remove the background. Return only a transparent PNG."
  const LoginMessage: string := "Please log in to save."
  const FallbackError: string := "Try a different image."

  /** What the error box shows: the authentication notice or an `AI Error:` line. */
  datatype ErrorView = AuthRequired | AiError(text: string)

  datatype State = State(
    selectedFile: Option<File>,
    previewUrl: Option<string>,
    resultUrl: Option<string>,
    resultBlob: Option<Blob>,
    isProcessing: bool,
    isDone: bool,
    isSaved: bool,
    isLoggedIn: bool,
    error: Option<ErrorView>,
    needsKeySelection: bool)

  const Initial: State := State(None, None, None, None, false, false, false, false, None, false)

  /** The file input's change event: a new photo discards the previous
      result, the saved mark, the error and the key notice. */
  function PickFile(s: State, file: Option<File>, preview: string): (t: State)
    ensures file.None? ==> t == s
    ensures file.Some? ==> t.selectedFile == file && t.previewUrl == Some(preview)
    ensures file.Some? ==> t.resultUrl.None? && t.resultBlob.None? && !t.isDone && !t.isSaved
    ensures file.Some? ==> t.error.None? && !t.needsKeySelection
    ensures t.isProcessing == s.isProcessing && t.isLoggedIn == s.isLoggedIn
  {
    if file.None? then s
    else s.(selectedFile := file, previewUrl := Some(preview), resultUrl := None, resultBlob := None,
            isDone := false, isSaved := false, error := None, needsKeySelection := false)
  }

  /** The run handler up to the model call; there is no key check here. */
  function StartRemoval(s: State): (l: Launch<State>)
    ensures s.selectedFile.None? ==> l == Launch(s, None)
    ensures s.selectedFile.Some? ==>
      l.state == s.(isProcessing := true, error := None) &&
      l.request == Some(Request(s.selectedFile.value.mimeType, Prompt))
  {
    if s.selectedFile.None? then Launch(s, None)
    else Launch(s.(isProcessing := true, error := None), Some(Request(s.selectedFile.value.mimeType, Prompt)))
  }

  /** The `AI Error:` line for a caught message (`msg || fallback`). */
  function FailureText(message: string): (text: string)
    ensures message != [] ==> text == "AI Error: " + message
    ensures message == [] ==> text == "AI Error: " + FallbackError
  {
    "AI Error: " + (if message == [] then FallbackError else message)
  }

  /** The run handler after the model call: an image part becomes the result,
      any failure is classified with the four-phrase list, and processing
      always stops. */
  function FinishRemoval(s: State, outcome: CallOutcome, decodedSize: nat): (t: State)
    ensures !t.isProcessing
    ensures t.selectedFile == s.selectedFile && t.isSaved == s.isSaved
    ensures match Scan(outcome, Classify.RemoverNoImageMessage)
      case Found(d) =>
        t.isDone && t.resultUrl == Some(DataUrl(d)) && t.resultBlob == Some(Blob(decodedSize, d.mimeType)) &&
        t.error == s.error && t.needsKeySelection == s.needsKeySelection
      case Failure(m) =>
        t.isDone == s.isDone && t.resultUrl == s.resultUrl && t.resultBlob == s.resultBlob &&
        (Classify.IsRemoverAuthError(m) ==> t.needsKeySelection && t.error == Some(AuthRequired)) &&
        (!Classify.IsRemoverAuthError(m) ==>
          t.needsKeySelection == s.needsKeySelection && t.error == Some(AiError(FailureText(m))))
  {
    var u := s.(isProcessing := false);
    match Scan(outcome, Classify.RemoverNoImageMessage)
    case Found(d) =>
      u.(resultBlob := Some(Blob(decodedSize, d.mimeType)), resultUrl := Some(DataUrl(d)), isDone := true)
    case Failure(m) =>
      if Classify.IsRemoverAuthError(m) then u.(needsKeySelection := true, error := Some(AuthRequired))
      else u.(error := Some(AiError(FailureText(m))))
  }

  /** A reply without any image part ends in the generic `AI Error:` line. */
  lemma NoImagePartIsGenericFailure(s: State, r: Response, decodedSize: nat)
    requires FirstImage(r).None?
    ensures var t := FinishRemoval(s, Replied(r), decodedSize);
      t.error == Some(AiError("AI Error: " + Classify.RemoverNoImageMessage)) &&
      t.needsKeySelection == s.needsKeySelection
  {
    Classify.RemoverNoImageIsNotAuth();
  }

  /** The first image part of the first candidate is the one shown, whatever
      parts follow it. */
  lemma FirstImagePartShown(s: State, parts: seq<Part>, later: seq<Part>, decodedSize: nat)
    requires FirstImageIndex(parts).Some?
    ensures var d := parts[FirstImageIndex(parts).value].inlineData.value;
      var r := Response(Some([Candidate(Some(Content(Some(parts + later))))]));
      var t := FinishRemoval(s, Replied(r), decodedSize);
      t.isDone && t.resultUrl == Some(DataUrl(d))
  {
    var r := Response(Some([Candidate(Some(Content(Some(parts + later))))]));
    assert CandidateParts(r) == parts + later;
    LaterPartsIgnored(parts, later);
    assert (parts + later)[FirstImageIndex(parts).value] == parts[FirstImageIndex(parts).value];
  }

  /** The run button is rendered; unlike the enhancer's it ignores the error. */
  predicate CanRun(s: State) {
    s.selectedFile.Some? && !s.isDone && !s.isProcessing && !s.needsKeySelection
  }

  /** After a failure that is not about the key, the run button is offered
      again next to the error line. */
  lemma RetryAfterGenericFailure(s: State, message: string, decodedSize: nat)
    requires s.selectedFile.Some? && !s.isDone && !s.needsKeySelection
    requires !Classify.IsRemoverAuthError(message)
    ensures var t := FinishRemoval(s, Threw(message), decodedSize);
      CanRun(t) && t.error == Some(AiError(FailureText(message)))
  {
  }

  /** The key dialog: outside the studio host nothing happens, a failed
      dialog is only logged, and a completed one clears the notice and the
      error and, with a photo selected, starts one new run straight away. */
  function OpenKeySelection(s: State, host: KeyHost, completed: bool): (l: Launch<State>)
    ensures host.NoHost? || !completed ==> l == Launch(s, None)
    ensures host.Host? && completed ==> !l.state.needsKeySelection && l.state.error.None?
    ensures host.Host? && completed ==> (l.request.Some? <==> s.selectedFile.Some?)
    ensures host.Host? && completed && s.selectedFile.Some? ==>
      l.state.isProcessing && l.request == Some(Request(s.selectedFile.value.mimeType, Prompt))
  {
    if host.NoHost? || !completed then Launch(s, None)
    else
      var t := s.(needsKeySelection := false, error := None);
      if t.selectedFile.Some? then StartRemoval(t) else Launch(t, None)
  }

  /** `name.split('.')[0]`: the part of the name before its first dot. */
  function Stem(name: string): (stem: string)
    ensures '.' !in stem
    ensures |stem| <= |name| && stem == name[..|stem|]
    ensures |stem| < |name| ==> name[|stem|] == '.'
  {
    Text.FirstPieceIsPrefix(name, '.');
    Text.Split(name, '.')[0]
  }

  /** A name without a dot is its own stem. */
  lemma StemOfDotless(name: string)
    requires '.' !in name
    ensures Stem(name) == name
  {
    Text.FirstPieceIsPrefix(name, '.');
  }

  /** The stored file name `${Date.now()}_nobg_${stem}.png`. */
  function FileName(now: nat, file: File): string {
    Text.Decimal(now) + "_nobg_" + Stem(file.name) + ".png"
  }

  /** The saved object is always a PNG named after the photo's stem, stored
      directly in the owner's folder. */
  lemma SavedNameShape(user: User, now: nat, file: File)
    requires '/' !in user.id && '/' !in file.name
    ensures var name := FileName(now, file);
      name[|name| - 4..] == ".png" &&
      Text.Split(user.id + "/" + name, '/') == [user.id, name]
  {
    var name := FileName(now, file);
    var stem := Stem(file.name);
    assert '/' !in stem by {
      forall i | 0 <= i < |stem| ensures stem[i] != '/' {
        assert stem[i] == file.name[i];
      }
    }
    var rest := "nobg_" + stem + ".png";
    assert name == Text.Decimal(now) + "_" + rest;
    assert '/' !in rest by {
      forall i | 0 <= i < |rest| ensures rest[i] != '/' {
        if 5 <= i < 5 + |stem| { assert rest[i] == stem[i - 5]; }
      }
    }
    StoragePathSegments(user.id, now, rest);
    assert StoragePath(user.id, now, rest) == user.id + "/" + name;
    assert name == (Text.Decimal(now) + "_nobg_" + stem) + ".png";
  }

  /** The save handler as written: the upload and insert replies are never
      read. The row's name is the stored file name and its size is the
      formatted kilobyte label, both inputs here. */
  function SaveToLibrary(s: State, session: Option<User>, now: nat, upload: Reply, publicUrl: string,
                         insert: Reply, date: string, sizeLabel: string): (e: SaveEffect<State>)
    ensures s.resultBlob.None? || s.selectedFile.None? ==> e == SaveEffect(s, [], None)
    ensures s.resultBlob.Some? && s.selectedFile.Some? && session.None? ==> e == SaveEffect(s, [], Some(LoginMessage))
    ensures s.resultBlob.Some? && s.selectedFile.Some? && session.Some? ==>
      var name := FileName(now, s.selectedFile.value);
      e.calls == [Upload(session.value.id + "/" + name, BlobData(s.resultBlob.value)),
                  InsertImage(ImageRow(session.value.id, name, publicUrl, BackgroundRemoved, date, sizeLabel))] &&
      e.state == s.(isSaved := true) && e.alert.None?
  {
    if s.resultBlob.None? || s.selectedFile.None? then SaveEffect(s, [], None)
    else if session.None? then SaveEffect(s, [], Some(LoginMessage))
    else
      var user := session.value;
      var name := FileName(now, s.selectedFile.value);
      SaveEffect(s.(isSaved := true),
                 [Upload(user.id + "/" + name, BlobData(s.resultBlob.value)),
                  InsertImage(ImageRow(user.id, name, publicUrl, BackgroundRemoved, date, sizeLabel))],
                 None)
  }

  /** As written, a rejected upload and a rejected insert still end with the
      result marked saved and no alert. */
  lemma FailedSaveReportedAsSaved(s: State, user: User, now: nat, publicUrl: string, date: string, sizeLabel: string, m1: string, m2: string)
    requires s.resultBlob.Some? && s.selectedFile.Some? && !s.isSaved
    ensures var e := SaveToLibrary(s, Some(user), now, Failed(m1), publicUrl, Failed(m2), date, sizeLabel);
      e.state.isSaved && e.alert.None?
  {
  }

  /** The save handler with the replies checked: an upload error stops before
      the insert, an insert error is reported, and only a fully successful
      save marks the result saved. */
  function SaveToLibraryChecked(s: State, session: Option<User>, now: nat, upload: Reply, publicUrl: string,
                                insert: Reply, date: string, sizeLabel: string): (e: SaveEffect<State>)
    ensures s.resultBlob.None? || s.selectedFile.None? ==> e == SaveEffect(s, [], None)
    ensures s.resultBlob.Some? && s.selectedFile.Some? && session.None? ==> e == SaveEffect(s, [], Some(LoginMessage))
    ensures e.state == s.(isSaved := e.state.isSaved)
    ensures e.calls != [] ==> session.Some? && s.selectedFile.Some? && s.resultBlob.Some?
    ensures e.calls != [] ==>
      e.calls[0] == Upload(session.value.id + "/" + FileName(now, s.selectedFile.value), BlobData(s.resultBlob.value))
    ensures upload.Failed? ==> |e.calls| <= 1
  {
    if s.resultBlob.None? || s.selectedFile.None? then SaveEffect(s, [], None)
    else if session.None? then SaveEffect(s, [], Some(LoginMessage))
    else
      var user := session.value;
      var name := FileName(now, s.selectedFile.value);
      var up := Upload(user.id + "/" + name, BlobData(s.resultBlob.value));
      match upload
      case Failed(m) => SaveEffect(s, [up], Some(m))
      case Done =>
        var ins := InsertImage(ImageRow(user.id, name, publicUrl, BackgroundRemoved, date, sizeLabel));
        match insert
        case Failed(m) => SaveEffect(s, [up, ins], Some(m))
        case Done => SaveEffect(s.(isSaved := true), [up, ins], None)
  }

  /** With the replies checked, the result is marked saved exactly when both
      calls succeed, and a failure is always shown. */
  lemma CheckedSaveOutcomes(s: State, user: User, now: nat, upload: Reply, publicUrl: string, insert: Reply, date: string, sizeLabel: string)
    requires s.resultBlob.Some? && s.selectedFile.Some? && !s.isSaved
    ensures var e := SaveToLibraryChecked(s, Some(user), now, upload, publicUrl, insert, date, sizeLabel);
      (e.state.isSaved <==> upload.Done? && insert.Done?) && (e.alert.None? <==> e.state.isSaved)
  {
  }

  /** Both handlers agree whenever the backend accepts both calls. */
  lemma CheckedAgreesOnSuccess(s: State, session: Option<User>, now: nat, publicUrl: string, date: string, sizeLabel: string)
    ensures SaveToLibraryChecked(s, session, now, Done, publicUrl, Done, date, sizeLabel) ==
            SaveToLibrary(s, session, now, Done, publicUrl, Done, date, sizeLabel)
  {
  }

  /** The remove and restart buttons: back to no photo, with no error and no
      key notice. */
  function Clear(s: State): (t: State)
    ensures t.selectedFile.None? && t.previewUrl.None? && t.resultUrl.None? && t.resultBlob.None?
    ensures !t.isDone && !t.isSaved && t.error.None? && !t.needsKeySelection
    ensures t.isProcessing == s.isProcessing && t.isLoggedIn == s.isLoggedIn
  {
    s.(selectedFile := None, previewUrl := None, resultUrl := None, resultBlob := None,
       isDone := false, isSaved := false, error := None, needsKeySelection := false)
  }

  /** Clearing an idle remover returns it to its initial state, apart from
      the login flag. */
  lemma ClearRestoresInitial(s: State)
    requires !s.isProcessing
    ensures Clear(s) == Initial.(isLoggedIn := s.isLoggedIn)
  {
  }

  function SessionChanged(s: State, session: Option<User>): (t: State)
    ensures t.isLoggedIn <==> session.Some?
    ensures t == s.(isLoggedIn := t.isLoggedIn)
  {
    s.(isLoggedIn := session.Some?)
  }

  // -------------------------------------------------------------- events

  datatype Event =
    | Pick(file: Option<File>, preview: string)
    | Run
    | Answer(outcome: CallOutcome, decodedSize: nat)
    | KeyDialog(completed: bool)
    | Save(user: Option<User>, now: nat, upload: Reply, publicUrl: string, insert: Reply, date: string, sizeLabel: string)
    | ClearAll
    | Session(session: Option<User>)

  function Step(s: State, host: KeyHost, e: Event): State {
    match e
    case Pick(f, p) => PickFile(s, f, p)
    case Run => StartRemoval(s).state
    case Answer(o, n) => FinishRemoval(s, o, n)
    case KeyDialog(c) => OpenKeySelection(s, host, c).state
    case Save(u, now, up, url, ins, date, size) => SaveToLibrary(s, u, now, up, url, ins, date, size).state
    case ClearAll => Clear(s)
    case Session(u) => SessionChanged(s, u)
  }

  function RunAll(s: State, host: KeyHost, events: seq<Event>): State
    decreases |events|
  {
    if events == [] then s else RunAll(Step(s, host, events[0]), host, events[1..])
  }

  /** A shown result always has its blob, and a saved mark always belongs to
      a selected photo. */
  predicate Inv(s: State) {
    (s.resultUrl.Some? <==> s.isDone) &&
    (s.isDone ==> s.resultBlob.Some?) &&
    (s.isSaved ==> s.selectedFile.Some? && s.resultBlob.Some?)
  }

  lemma StepPreservesInv(s: State, host: KeyHost, e: Event)
    requires Inv(s)
    ensures Inv(Step(s, host, e))
  {
  }

  lemma {:induction false} RunPreservesInv(s: State, host: KeyHost, events: seq<Event>)
    requires Inv(s)
    ensures Inv(RunAll(s, host, events))
    decreases |events|
  {
    if events != [] {
      StepPreservesInv(s, host, events[0]);
      RunPreservesInv(Step(s, host, events[0]), host, events[1..]);
    }
  }
}

/**
  The image compressor: pick a file, choose a JPEG quality, re-encode it in
  the browser, look at the size reduction, and save the result to the
  user's library. The browser's decode and encode are inputs: the model
  receives their outcome (a blob or none) as an event.
 */
module Compressor {
  import opened Common
  import Text
  import opened Backend

  /** The quality slider's range. */
  type Quality = q: int | 5 <= q <= 95 witness 80

  const DefaultQuality: Quality := 80

  const LoginMessage: string := "You must be logged in to save images."
  const BucketMissingMessage: string :=
    "Critical: The 'images' bucket does not exist in your Supabase Storage. Please create it first."

  /** The result card: sizes in bytes and the percentage saved. The ratio is
      absent when the original is empty, where JavaScript's division yields
      no finite number. */
  datatype Metrics = Metrics(originalSize: nat, compressedSize: nat, ratio: Option<int>)

  datatype State = State(
    selectedFile: Option<File>,
    previewUrl: Option<string>,
    compressedBlob: Option<Blob>,
    isProcessing: bool,
    progress: nat,
    quality: Quality,
    isSaved: bool,
    isLoggedIn: bool,
    result: Option<Metrics>)

  const Initial: State :=
    State(None, None, None, false, 0, DefaultQuality, false, false, None)

  // ---------------------------------------------------------------- ratio

  /** `Math.floor((1 - compressed / original) * 100)`, over exact rationals:
      the largest whole percentage not above the saving. */
  function ReductionRatio(original: nat, compressed: nat): (r: Option<int>)
    ensures r.None? <==> original == 0
    ensures r.Some? ==> r.value * original <= 100 * (original - compressed) < (r.value + 1) * original
  {
    if original == 0 then None else Some((100 * (original - compressed)) / original)
  }

  /** Multiplying by a non-negative factor keeps the order. */
  lemma MulMono(a: int, b: int, n: int)
    requires n >= 0
    ensures a <= b ==> a * n <= b * n
  {
    if a <= b {
      assert b * n - a * n == (b - a) * n;
    }
  }

  /** The ratio is the only whole number with the floor property, so any
      other computation of the floor agrees with it. */
  lemma RatioIsTheFloor(original: nat, compressed: nat, k: int)
    requires original > 0
    requires k * original <= 100 * (original - compressed) < (k + 1) * original
    ensures ReductionRatio(original, compressed) == Some(k)
  {
    var r := ReductionRatio(original, compressed).value;
    MulMono(k + 1, r, original);
    MulMono(r + 1, k, original);
  }

  /** The saving is at most 100%, is 100% exactly for an empty output, and is
      negative exactly when the output is larger than the input. */
  lemma RatioBounds(original: nat, compressed: nat)
    requires original > 0
    ensures ReductionRatio(original, compressed).value <= 100
    ensures ReductionRatio(original, compressed).value == 100 <==> compressed == 0
    ensures ReductionRatio(original, compressed).value < 0 <==> compressed > original
  {
    var r := ReductionRatio(original, compressed).value;
    var n := 100 * (original - compressed);
    // r <= 100, since 101 * original > n
    MulMono(101, r, original);
    // r == 100 forces n >= 100 * original, that is compressed == 0
    MulMono(100, r, original);
    if compressed == 0 {
      RatioIsTheFloor(original, compressed, 100);
    }
    // r < 0 exactly when n < 0
    MulMono(r + 1, 0, original);
    MulMono(0, r, original);
  }

  // ------------------------------------------------------------ file name

  /** The characters `[a-zA-Z0-9.]` that survive sanitising. */
  predicate SafeChar(c: char) {
    ('a' <= c <= 'z') || ('A' <= c <= 'Z') || ('0' <= c <= '9') || c == '.'
  }

  /** `name.replace(/[^a-zA-Z0-9.]/g, '_')`. */
  function Sanitize(name: string): (clean: string)
    ensures |clean| == |name|
    ensures forall i :: 0 <= i < |name| ==> clean[i] == (if SafeChar(name[i]) then name[i] else '_')
  {
    if name == [] then []
    else [if SafeChar(name[0]) then name[0] else '_'] + Sanitize(name[1..])
  }

  /** A sanitised name holds only safe characters and underscores, so in
      particular no path separator. */
  lemma SanitizedIsSafe(name: string)
    ensures forall i :: 0 <= i < |Sanitize(name)| ==> SafeChar(Sanitize(name)[i]) || Sanitize(name)[i] == '_'
    ensures '/' !in Sanitize(name)
  {
  }

  /** Sanitising twice changes nothing more, and a name that is already safe
      is kept as it is. */
  lemma SanitizeIdempotent(name: string)
    ensures Sanitize(Sanitize(name)) == Sanitize(name)
    ensures (forall i :: 0 <= i < |name| ==> SafeChar(name[i])) ==> Sanitize(name) == name
  {
  }

  /** The object path of a compressed save: the user's folder, then the
      timestamped clean name. */
  function SavePath(user: User, now: nat, file: File): string {
    StoragePath(user.id, now, Sanitize(file.name))
  }

  /** Whatever the picked file is called, the object lands directly in the
      owner's folder: the path has exactly two segments. */
  lemma SavePathHasTwoSegments(user: User, now: nat, file: File)
    requires '/' !in user.id
    ensures Text.Split(SavePath(user, now, file), '/') == [user.id, Text.Decimal(now) + "_" + Sanitize(file.name)]
  {
    SanitizedIsSafe(file.name);
    StoragePathSegments(user.id, now, Sanitize(file.name));
  }

  // -------------------------------------------------------------- labels

  /** The badge over the preview. */
  datatype QualityLabel = HighFidelity | Balanced | LowBitrate

  function LabelOf(q: Quality): (l: QualityLabel)
    ensures l == HighFidelity <==> q > 80
    ensures l == LowBitrate <==> q <= 40
  {
    if q > 80 then HighFidelity else if q > 40 then Balanced else LowBitrate
  }

  function LabelRank(l: QualityLabel): nat {
    match l
    case LowBitrate => 0
    case Balanced => 1
    case HighFidelity => 2
  }

  /** A higher quality never shows a lower badge. */
  lemma LabelMonotone(q1: Quality, q2: Quality)
    requires q1 <= q2
    ensures LabelRank(LabelOf(q1)) <= LabelRank(LabelOf(q2))
  {
  }

  /** `EST. -{Math.max(0, 100 - quality)}% SIZE`. */
  function EstimatedSaving(q: Quality): (pct: int)
    ensures 5 <= pct <= 95
    ensures pct + q == 100
  {
    if 100 - q > 0 then 100 - q else 0
  }

  /** The three captions under the slider, of which the highlighted ones are
      `< 30`, `30..70` and `> 70`. */
  datatype Band = SmallFile | BalancedBand | BestQuality

  predicate Highlighted(q: Quality, b: Band) {
    match b
    case SmallFile => q < 30
    case BalancedBand => 30 <= q <= 70
    case BestQuality => q > 70
  }

  /** Exactly one caption is highlighted at any quality. */
  lemma ExactlyOneBand(q: Quality)
    ensures Highlighted(q, SmallFile) || Highlighted(q, BalancedBand) || Highlighted(q, BestQuality)
    ensures !(Highlighted(q, SmallFile) && Highlighted(q, BalancedBand))
    ensures !(Highlighted(q, SmallFile) && Highlighted(q, BestQuality))
    ensures !(Highlighted(q, BalancedBand) && Highlighted(q, BestQuality))
  {
  }

  // --------------------------------------------------------- transitions

  /** The file input's change event; no file chosen changes nothing. */
  function PickFile(s: State, file: Option<File>, preview: string): (t: State)
    ensures file.None? ==> t == s
    ensures file.Some? ==> t.selectedFile == file && t.previewUrl == Some(preview)
    ensures file.Some? ==> t.compressedBlob.None? && t.result.None? && t.progress == 0 && !t.isSaved
    ensures t.isProcessing == s.isProcessing && t.quality == s.quality && t.isLoggedIn == s.isLoggedIn
  {
    if file.None? then s
    else s.(selectedFile := file, previewUrl := Some(preview), compressedBlob := None,
            result := None, progress := 0, isSaved := false)
  }

  /** The slider's change event: only the result card goes away. */
  function SetQuality(s: State, q: Quality): (t: State)
    ensures t.quality == q && t.result.None?
    ensures t.compressedBlob == s.compressedBlob && t.isSaved == s.isSaved
    ensures t.selectedFile == s.selectedFile && t.isProcessing == s.isProcessing && t.progress == s.progress
    ensures t.previewUrl == s.previewUrl && t.isLoggedIn == s.isLoggedIn
  {
    s.(quality := q, result := None)
  }

  /** The compress button: processing starts at 20%. Without a file nothing
      happens. */
  function StartCompress(s: State): (t: State)
    ensures s.selectedFile.None? ==> t == s
    ensures s.selectedFile.Some? ==> t.isProcessing && t.progress == 20
    ensures t.result == s.result && t.compressedBlob == s.compressedBlob && t.selectedFile == s.selectedFile
  {
    if s.selectedFile.None? then s else s.(isProcessing := true, progress := 20)
  }

  /** The image's load event: progress goes to 50 and straight on to 80. */
  function ImageDecoded(s: State): (t: State)
    ensures t.progress == 80
    ensures t == s.(progress := t.progress)
  {
    s.(progress := 80)
  }

  /** The encoder's callback, for the file captured when compression began:
      with a blob, the result card appears; either way progress ends at 100
      and processing stops. */
  function EncodeDone(s: State, source: File, blob: Option<Blob>): (t: State)
    ensures t.progress == 100 && !t.isProcessing
    ensures blob.None? ==> t.result == s.result && t.compressedBlob == s.compressedBlob
    ensures blob.Some? ==> t.compressedBlob == blob
    ensures blob.Some? ==> t.result == Some(Metrics(source.size, blob.value.size, ReductionRatio(source.size, blob.value.size)))
    ensures t.selectedFile == s.selectedFile && t.isSaved == s.isSaved && t.quality == s.quality
  {
    var u := s.(progress := 100, isProcessing := false);
    match blob
    case Some(b) =>
      u.(compressedBlob := blob, result := Some(Metrics(source.size, b.size, ReductionRatio(source.size, b.size))))
    case None => u
  }

  /** The image has no error handler: a file that fails to decode leaves the
      state exactly as it was. */
  function DecodeFailedAsWritten(s: State): (t: State)
    ensures t == s
  {
    s
  }

  /** The handler the code evidently lacks: a decode failure stops processing
      and drops the progress bar, so the user can try again. */
  function DecodeFailed(s: State): (t: State)
    ensures !t.isProcessing && t.progress == 0
    ensures t.result == s.result && t.selectedFile == s.selectedFile && t.compressedBlob == s.compressedBlob
  {
    s.(isProcessing := false, progress := 0)
  }

  /** The remove and restart buttons. Processing is not stopped. */
  function Clear(s: State): (t: State)
    ensures t.selectedFile.None? && t.previewUrl.None? && t.compressedBlob.None? && t.result.None?
    ensures t.progress == 0 && !t.isSaved
    ensures t.isProcessing == s.isProcessing && t.quality == s.quality && t.isLoggedIn == s.isLoggedIn
  {
    s.(selectedFile := None, previewUrl := None, compressedBlob := None, result := None,
       progress := 0, isSaved := false)
  }

  /** The auth subscription: the save button follows the session. */
  function SessionChanged(s: State, session: Option<User>): (t: State)
    ensures t.isLoggedIn <==> session.Some?
    ensures t == s.(isLoggedIn := t.isLoggedIn)
  {
    s.(isLoggedIn := session.Some?)
  }

  /** The compress button is rendered. */
  predicate CanCompress(s: State) {
    s.selectedFile.Some? && s.result.None? && !s.isProcessing
  }

  /** The save button is rendered and enabled (it disappears while saving). */
  predicate CanSave(s: State) {
    s.selectedFile.Some? && s.result.Some? && s.isLoggedIn && !s.isSaved
  }

  // ---------------------------------------------------------------- save

  /** The upload error text the user sees. */
  function UploadAlert(message: string): (a: string)
    ensures Text.Contains(message, "Bucket not found") ==> a == BucketMissingMessage
    ensures !Text.Contains(message, "Bucket not found") ==> a == "Upload failed: " + message
  {
    if Text.Contains(message, "Bucket not found") then BucketMissingMessage else "Upload failed: " + message
  }

  /** The save handler, run to completion: the session (absent also when the
      session lookup errs), the clock, the two replies, the public URL, the
      insert date and the formatted size label are inputs. */
  function SaveToLibrary(s: State, session: Option<User>, now: nat, upload: Reply, publicUrl: string,
                         insert: Reply, date: string, sizeLabel: string): (e: SaveEffect<State>)
    ensures s.selectedFile.None? || s.compressedBlob.None? || s.result.None? ==> e == SaveEffect(s, [], None)
    ensures e.state == s.(isSaved := e.state.isSaved)
    ensures e.calls != [] ==> session.Some? && s.compressedBlob.Some? && s.selectedFile.Some?
    ensures e.calls != [] ==> e.calls[0] == Upload(SavePath(session.value, now, s.selectedFile.value), BlobData(s.compressedBlob.value))
  {
    if s.selectedFile.None? || s.compressedBlob.None? || s.result.None? then SaveEffect(s, [], None)
    else if session.None? then SaveEffect(s, [], Some(LoginMessage))
    else
      var user, file := session.value, s.selectedFile.value;
      var path := SavePath(user, now, file);
      var up := Upload(path, BlobData(s.compressedBlob.value));
      match upload
      case Failed(m) => SaveEffect(s, [up], Some(UploadAlert(m)))
      case Done =>
        var ins := InsertImage(ImageRow(user.id, file.name, publicUrl, Compressed, date, sizeLabel));
        match insert
        case Failed(m) => SaveEffect(s, [up, ins, RemoveObjects([path])], Some("Database Error: " + m))
        case Done => SaveEffect(s.(isSaved := true), [up, ins], None)
  }

  /** Without a session the handler fails with the login message before any
      upload. */
  lemma SaveNeedsSession(s: State, now: nat, upload: Reply, publicUrl: string, insert: Reply, date: string, sizeLabel: string)
    requires s.selectedFile.Some? && s.compressedBlob.Some? && s.result.Some?
    ensures SaveToLibrary(s, None, now, upload, publicUrl, insert, date, sizeLabel) == SaveEffect(s, [], Some(LoginMessage))
  {
  }

  /** The save succeeds exactly when both the upload and the insert do; an
      upload error stops before the insert, and an insert error removes the
      object that was just uploaded. */
  lemma SaveOutcomes(s: State, user: User, now: nat, upload: Reply, publicUrl: string, insert: Reply, date: string, sizeLabel: string)
    requires s.selectedFile.Some? && s.compressedBlob.Some? && s.result.Some? && !s.isSaved
    ensures var e := SaveToLibrary(s, Some(user), now, upload, publicUrl, insert, date, sizeLabel);
      (e.state.isSaved <==> upload.Done? && insert.Done?) &&
      (e.alert.None? <==> e.state.isSaved) &&
      (upload.Failed? ==> |e.calls| == 1) &&
      (upload.Done? && insert.Failed? ==>
        |e.calls| == 3 && e.calls[1].InsertImage? && e.calls[2] == RemoveObjects([e.calls[0].path])) &&
      (upload.Done? ==> e.calls[1] == InsertImage(ImageRow(user.id, s.selectedFile.value.name, publicUrl, Compressed, date, sizeLabel)))
  {
  }

  // -------------------------------------------------------------- events

  datatype Event =
    | Pick(file: Option<File>, preview: string)
    | Slide(q: Quality)
    | Compress
    | Decoded
    | Encoded(source: File, blob: Option<Blob>)
    | DecodeError
    | ClearAll
    | Session(session: Option<User>)
    | Save(user: Option<User>, now: nat, upload: Reply, publicUrl: string, insert: Reply, date: string, sizeLabel: string)

  function Step(s: State, e: Event): State {
    match e
    case Pick(f, p) => PickFile(s, f, p)
    case Slide(q) => SetQuality(s, q)
    case Compress => StartCompress(s)
    case Decoded => ImageDecoded(s)
    case Encoded(src, b) => EncodeDone(s, src, b)
    case DecodeError => DecodeFailed(s)
    case ClearAll => Clear(s)
    case Session(u) => SessionChanged(s, u)
    case Save(u, now, up, url, ins, date, size) => SaveToLibrary(s, u, now, up, url, ins, date, size).state
  }

  function Run(s: State, events: seq<Event>): State
    decreases |events|
  {
    if events == [] then s else Run(Step(s, events[0]), events[1..])
  }

  /** What every reachable state satisfies: progress is one of the stages,
      and a result card always describes the blob on hand, with the ratio of
      its two sizes. */
  predicate Inv(s: State) {
    s.progress in {0, 20, 80, 100} &&
    (s.result.Some? ==>
      s.compressedBlob.Some? &&
      s.result.value.compressedSize == s.compressedBlob.value.size &&
      s.result.value.ratio == ReductionRatio(s.result.value.originalSize, s.result.value.compressedSize))
  }

  lemma InitialInv()
    ensures Inv(Initial)
  {
  }

  lemma StepPreservesInv(s: State, e: Event)
    requires Inv(s)
    ensures Inv(Step(s, e))
  {
  }

  lemma {:induction false} RunPreservesInv(s: State, events: seq<Event>)
    requires Inv(s)
    ensures Inv(Run(s, events))
    decreases |events|
  {
    if events != [] {
      StepPreservesInv(s, events[0]);
      RunPreservesInv(Step(s, events[0]), events[1..]);
    }
  }

  /** The events a user can cause; the browser's decode and encode callbacks
      are the others. */
  predicate UserEvent(e: Event) {
    e.Pick? || e.Slide? || e.Compress? || e.ClearAll? || e.Session? || e.Save?
  }

  /** As written, once processing has started and the browser never calls
      back (the file did not decode), nothing the user does stops it: the
      compress button never comes back, even after clearing and picking a
      new file. */
  lemma {:induction false} StuckWithoutCallback(s: State, events: seq<Event>)
    requires s.isProcessing
    requires forall i :: 0 <= i < |events| ==> UserEvent(events[i])
    ensures Run(s, events).isProcessing
    ensures !CanCompress(Run(s, events))
    decreases |events|
  {
    if events != [] {
      var t := Step(s, events[0]);
      assert t.isProcessing;
      RunPreservesProcessing(t, events[1..]);
    }
  }

  lemma {:induction false} RunPreservesProcessing(s: State, events: seq<Event>)
    requires s.isProcessing
    requires forall i :: 0 <= i < |events| ==> UserEvent(events[i])
    ensures Run(s, events).isProcessing
    decreases |events|
  {
    if events != [] {
      RunPreservesProcessing(Step(s, events[0]), events[1..]);
    }
  }

  /** With the decode-failure handler, a failed decode hands the compress
      button back as soon as there is a file and no result. */
  lemma DecodeFailureAllowsRetry(s: State, file: File, preview: string)
    ensures CanCompress(PickFile(DecodeFailed(s), Some(file), preview))
    ensures s.selectedFile.Some? && s.result.None? ==> CanCompress(DecodeFailed(s))
  {
  }

  /** Picking a file, compressing it and getting a blob back always shows a
      result for that file with its exact ratio. */
  lemma CompressRoundTrip(s: State, file: File, preview: string, blob: Blob)
    ensures var t := EncodeDone(ImageDecoded(StartCompress(PickFile(s, Some(file), preview))), file, Some(blob));
      t.result == Some(Metrics(file.size, blob.size, ReductionRatio(file.size, blob.size))) &&
      t.selectedFile == Some(file) && !t.isProcessing && t.progress == 100 && !t.isSaved
  {
  }

  /** After a save, changing the quality and compressing again shows a new
      result whose save button stays disabled: `isSaved` is never reset on
      this path. */
  lemma SavedFlagOutlivesResult(s: State, q: Quality, source: File, blob: Blob)
    requires s.isSaved
    ensures var t := EncodeDone(ImageDecoded(StartCompress(SetQuality(s, q))), source, Some(blob));
      t.result.Some? && t.isSaved && !CanSave(t)
  {
  }
}

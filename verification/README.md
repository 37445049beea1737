# Lama-Image in Dafny

A model of the logic inside Lama-Image. Lama-Image is a React single-page site with three image tools:
- a JPEG compressor;
- an AI enhancer;
- an AI background remover.

It also has a personal library of saved images, a review form, a password-gated review moderation page, and the navigation around them. Each component becomes an immutable `State` datatype plus pure transition functions, one per UI event. Each asynchronous handler is cut at its `await`s:
- the first half returns the request it would send (`Launch`);
- the second half takes the outcome of the call as an input.

Backend replies, the AI service's response, the clock, the confirmation dialog, the URL parser and the browser's image callbacks are always inputs. A save or delete handler returns the component state, the backend calls it issued in order, and the alert it showed.

Modules, one per file:

| file | module | models |
|---|---|---|
| common.dfy | `Common` | `Option` |
| text.dfy | `Text` | ASCII lower-casing, substring search, split/join on a character, decimal rendering of timestamps |
| lists.dfy | `Lists` | `filter` by id, with its order-preserving and exactly-one lemmas |
| backend.dfy | `Backend` | table rows, storage/database calls and replies, the `userId/now_name` storage path |
| remote.dfy | `Remote` | the generate-content response shape and the "first inline-data part wins" scan |
| classify.dfy | `Classify` | the auth-error classifiers of the two AI tools |
| compressor.dfy | `Compressor` | `components/ImageCompressor.tsx` |
| enhancer.dfy | `Enhancer` | `components/ImageEnhancer.tsx` |
| remover.dfy | `Remover` | `components/BackgroundRemover.tsx` |
| library.dfy | `Library` | `pages/Library.tsx` |
| adminreviews.dfy | `AdminReviews` | `pages/AdminReviews.tsx` |
| reviewform.dfy | `ReviewForm` | `components/ReviewForm.tsx` |
| home.dfy | `Home` | `pages/Home.tsx` |
| header.dfy | `Header` | `components/Header.tsx` |

## Model

| member | source | states |
|---|---|---|
| Compressor.ReductionRatio | components/ImageCompressor.tsx:64-68 | no ratio exactly when the original size is 0; otherwise the ratio r satisfies r·o ≤ 100·(o−c) < (r+1)·o, which makes it the floor of the percentage saved |
| Compressor.RatioIsTheFloor | components/ImageCompressor.tsx:67 | any whole number with the floor property is the ratio, so the ratio is exactly ⌊100·(o−c)/o⌋ |
| Compressor.RatioBounds | components/ImageCompressor.tsx:67 | the ratio is at most 100, is 100 iff the compressed size is 0, and is negative iff the output is larger than the original |
| Compressor.Sanitize | components/ImageCompressor.tsx:92 | same length as the name; every character outside [A-Za-z0-9.] is replaced by '_', and every other character is kept |
| Compressor.SanitizedIsSafe | components/ImageCompressor.tsx:92 | a sanitised name holds only safe characters and '_', and never a '/' |
| Compressor.SanitizeIdempotent | components/ImageCompressor.tsx:92 | sanitising twice equals sanitising once, and an already-safe name is unchanged |
| Compressor.SavePathHasTwoSegments | components/ImageCompressor.tsx:92-93 | for any file name, the save path splits on '/' into exactly the user id and `now_cleanName` |
| Compressor.LabelOf | components/ImageCompressor.tsx:214 | the badge is HighFidelity iff quality > 80, and LowBitrate iff quality ≤ 40 |
| Compressor.LabelMonotone | components/ImageCompressor.tsx:214 | a higher quality never shows a lower badge |
| Compressor.EstimatedSaving | components/ImageCompressor.tsx:217 | the estimated saving lies in 5..95 and adds up with the quality to 100 |
| Compressor.ExactlyOneBand | components/ImageCompressor.tsx:253-255 | at every quality, exactly one of the three captions under the slider is highlighted |
| Compressor.PickFile | components/ImageCompressor.tsx:30-40 | picking a file sets file and preview and clears blob, result, saved flag and progress; no file picked changes nothing |
| Compressor.SetQuality | components/ImageCompressor.tsx:245-248 | moving the slider sets the quality and clears only the result; every other field, including the blob, the saved flag, the preview and the login flag, stays |
| Compressor.StartCompress | components/ImageCompressor.tsx:42-45 | with a file, processing starts at 20%; without one nothing changes |
| Compressor.ImageDecoded | components/ImageCompressor.tsx:50-59 | the decode callback moves progress to 80 and changes nothing else |
| Compressor.EncodeDone | components/ImageCompressor.tsx:60-72 | the encoder callback always ends at 100% and stops processing; a blob becomes the result, with the sizes of the captured file and the blob and their ratio; no blob leaves result and blob as they were |
| Compressor.DecodeFailedAsWritten | components/ImageCompressor.tsx:47-50 | the image has no error handler: a failed decode changes no state |
| Compressor.DecodeFailed | components/ImageCompressor.tsx:42-77 | the handler evidently intended: processing stops and progress returns to 0; file, blob and result stay |
| Compressor.Clear | components/ImageCompressor.tsx:148-156 | no file, preview, blob or result, progress 0, not saved; processing and quality are left alone |
| Compressor.SessionChanged | components/ImageCompressor.tsx:18-28 | the login flag mirrors whether a session is present, and nothing else changes |
| Compressor.UploadAlert | components/ImageCompressor.tsx:104-108 | a "Bucket not found" reply gives the bucket notice; any other message is shown after "Upload failed: " |
| Compressor.SaveToLibrary | components/ImageCompressor.tsx:79-138 | without file, blob and result nothing happens; only the saved flag can change; the first call is always the upload of the blob to the sanitised path of a signed-in user |
| Compressor.SaveNeedsSession | components/ImageCompressor.tsx:84-87 | without a session, the login message is shown before any call |
| Compressor.SaveOutcomes | components/ImageCompressor.tsx:96-134 | saved iff upload and insert both succeed, with an alert iff not saved; an upload error issues one call; an insert error is followed by removal of the object just uploaded; the inserted row carries the original name and kind Compressed |
| Compressor.InitialInv | components/ImageCompressor.tsx:6-15 | the initial state satisfies the invariant |
| Compressor.StepPreservesInv | components/ImageCompressor.tsx:30-156 | every event keeps progress in {0, 20, 80, 100}, and keeps every shown result describing the held blob with its exact ratio |
| Compressor.RunPreservesInv | components/ImageCompressor.tsx:30-156 | the invariant holds after any sequence of events |
| Compressor.StuckWithoutCallback | components/ImageCompressor.tsx:47-50 | as written, if the browser never calls back, no sequence of user events stops processing or brings back the compress button |
| Compressor.RunPreservesProcessing | components/ImageCompressor.tsx:47-50 | user events alone never clear the processing flag |
| Compressor.DecodeFailureAllowsRetry | components/ImageCompressor.tsx:259 | with the corrected handler, the compress button is offered again after a failed decode |
| Compressor.CompressRoundTrip | components/ImageCompressor.tsx:30-72 | pick, compress, decode, encode always shows the result for the picked file with its exact ratio, unsaved, at 100% |
| Compressor.SavedFlagOutlivesResult | components/ImageCompressor.tsx:245-248 | after a save, a quality change and a new compression show a new result whose save button stays disabled |
| Enhancer.PromptCarriesIntensity | components/ImageEnhancer.tsx:108 | the digits after the prompt's fixed head read back as the intensity, and distinct intensities give distinct prompts |
| Enhancer.CheckKeyStatus | components/ImageEnhancer.tsx:35-40 | with the studio host present, the key notice is shown iff no key is selected; outside the host nothing changes |
| Enhancer.Mount | components/ImageEnhancer.tsx:7-33 | the mounted state is empty with intensity 75, and the key notice is shown iff the host reports no key |
| Enhancer.PickFile | components/ImageEnhancer.tsx:54-66 | a picked file clears result URL, blob, done and saved flags and the error, then re-runs the key check: inside the host the key notice shows iff no key is selected, outside it the notice stays; login flag, intensity and processing are kept |
| Enhancer.StartEnhance | components/ImageEnhancer.tsx:81-108 | without a photo nothing happens; a host reporting no key raises the key notice and sends nothing; otherwise processing starts and one request with the photo's type and the intensity prompt is sent |
| Enhancer.FailureText | components/ImageEnhancer.tsx:161 | "Processing failed: " followed by the message, or by the fallback text when the message is empty |
| Enhancer.FinishEnhance | components/ImageEnhancer.tsx:110-165 | processing always ends; the first image part becomes the shown result and blob; a failure asks for a key iff the five-phrase classifier matches, and otherwise shows the failure line |
| Enhancer.NoImagePartIsGenericFailure | components/ImageEnhancer.tsx:139-161 | a reply without any image part ends in "Processing failed: " plus the no-image message, never in the key notice |
| Enhancer.FirstImagePartShown | components/ImageEnhancer.tsx:120-137 | the first inline-data part is the one shown, whatever parts follow it |
| Enhancer.AuthFailureAsksForKey | components/ImageEnhancer.tsx:149-159 | an auth-looking failure raises the key notice and takes the run button away |
| Enhancer.SetIntensity | components/ImageEnhancer.tsx:301-306 | moving the slider clears done, result URL and error, and keeps every other field, including the blob, the saved flag, the preview and the login flag |
| Enhancer.OpenKeySelection | components/ImageEnhancer.tsx:68-79 | outside the host, or if the dialog fails, nothing happens; a completed dialog clears notice and error and, with a photo, starts a run |
| Enhancer.SizeLabel | components/ImageEnhancer.tsx:188 | "Ultra HD" iff intensity > 80, otherwise "HD Enhanced" |
| Enhancer.SavePayload | components/ImageEnhancer.tsx:169-170 | the upload is the result blob, or else the original photo; there is nothing to upload only without both |
| Enhancer.SaveToLibrary | components/ImageEnhancer.tsx:168-197 | as written: with a photo and a session, upload and insert are issued and the photo is marked saved whatever the replies say |
| Enhancer.FailedSaveReportedAsSaved | components/ImageEnhancer.tsx:179-191 | as written, a rejected upload and a rejected insert still end marked saved, with no alert |
| Enhancer.SaveToLibraryChecked | components/ImageEnhancer.tsx:168-197 | corrected: the same guards and the same first call, but an upload error stops before the insert |
| Enhancer.CheckedSaveOutcomes | components/ImageEnhancer.tsx:179-193 | corrected: marked saved iff both calls succeed, and an alert iff not saved |
| Enhancer.CheckedAgreesOnSuccess | components/ImageEnhancer.tsx:179-191 | when the backend accepts both calls, the corrected handler does exactly what the written one does |
| Enhancer.IntensityChangeKeepsSavedBlob | components/ImageEnhancer.tsx:301-306 | the save handler alone, run after the slider moves, would upload the earlier result blob under the new size label; the page offers no save then, because the slider clears the done flag the save button needs |
| Enhancer.Clear | components/ImageEnhancer.tsx:199-209 | no photo, preview, result, blob, done or saved flag and no error; the key check runs again (inside the host the notice shows iff no key is selected, outside it stays); intensity, processing and login flag are left alone |
| Enhancer.SessionChanged | components/ImageEnhancer.tsx:21-29 | the login flag mirrors whether a session is present |
| Enhancer.MountInv | components/ImageEnhancer.tsx:7-18 | the mounted state satisfies the invariant |
| Enhancer.StepPreservesInv | components/ImageEnhancer.tsx:54-209 | every event, with the save as written, keeps "a result URL is shown iff done", "done implies a blob", and "saved implies a photo" |
| Enhancer.RunPreservesInv | components/ImageEnhancer.tsx:54-209 | the invariant holds after any sequence of events |
| Enhancer.KeyNoticeStuckWithoutHost | components/ImageEnhancer.tsx:68-79 | outside the studio host, once the key notice is up, no sequence of events of the program as written clears it or brings back the run button |
| Remover.PickFile | components/BackgroundRemover.tsx:44-56 | a picked file clears result, blob, done and saved flags, the error and the key notice; no file changes nothing |
| Remover.StartRemoval | components/BackgroundRemover.tsx:72-92 | without a photo nothing happens; otherwise processing starts, the error is cleared and one request with the fixed prompt is sent, with no key check |
| Remover.FailureText | components/BackgroundRemover.tsx:116-133 | "AI Error: " followed by the message, or by "Try a different image." when it is empty |
| Remover.FinishRemoval | components/BackgroundRemover.tsx:94-137 | processing always ends; the first image part becomes the result; a failure raises the key notice iff the four-phrase classifier matches, and otherwise shows the AI Error line |
| Remover.NoImagePartIsGenericFailure | components/BackgroundRemover.tsx:113-133 | a reply without an image part ends in "AI Error: " plus the no-image message, and the key notice is unchanged |
| Remover.FirstImagePartShown | components/BackgroundRemover.tsx:94-111 | the first inline-data part is the one shown, whatever parts follow it |
| Remover.RetryAfterGenericFailure | components/BackgroundRemover.tsx:245 | after a failure that is not about the key, the run button is offered again next to the error |
| Remover.OpenKeySelection | components/BackgroundRemover.tsx:58-70 | outside the host, or if the dialog fails, nothing happens; a completed dialog clears notice and error and starts exactly one run iff a photo is selected |
| Remover.Stem | components/BackgroundRemover.tsx:147 | the stem is the prefix of the name before its first '.', holds no '.', and is followed by a '.' unless it is the whole name |
| Remover.StemOfDotless | components/BackgroundRemover.tsx:147 | a name without a dot is its own stem |
| Remover.SavedNameShape | components/BackgroundRemover.tsx:147-148 | the stored name always ends in ".png", and the object lies directly in the owner's folder |
| Remover.SaveToLibrary | components/BackgroundRemover.tsx:140-168 | as written: no result or photo means nothing happens; without a session the login message; otherwise upload to `userId/now_nobg_stem.png`, insert a row named by that file name, and mark saved whatever the replies say |
| Remover.FailedSaveReportedAsSaved | components/BackgroundRemover.tsx:150-162 | as written, a rejected upload and a rejected insert still end marked saved, with no alert |
| Remover.SaveToLibraryChecked | components/BackgroundRemover.tsx:140-168 | corrected: the same guards and first call, but an upload error stops before the insert |
| Remover.CheckedSaveOutcomes | components/BackgroundRemover.tsx:150-164 | corrected: marked saved iff both calls succeed, and an alert iff not saved |
| Remover.CheckedAgreesOnSuccess | components/BackgroundRemover.tsx:150-162 | when the backend accepts both calls, the corrected handler does exactly what the written one does |
| Remover.Clear | components/BackgroundRemover.tsx:170-180 | no photo, preview, result, blob, done or saved flag, error or key notice |
| Remover.ClearRestoresInitial | components/BackgroundRemover.tsx:170-180 | clearing an idle remover gives the initial state, apart from the login flag |
| Remover.SessionChanged | components/BackgroundRemover.tsx:20-30 | the login flag mirrors whether a session is present |
| Remover.StepPreservesInv | components/BackgroundRemover.tsx:44-180 | every event, with the save as written, keeps "a result URL is shown iff done", "done implies a blob", and "saved implies a photo and a blob" |
| Remover.RunPreservesInv | components/BackgroundRemover.tsx:44-180 | the invariant holds after any sequence of events |
| Remote.CandidateParts | components/ImageEnhancer.tsx:120-122 | non-empty parts come from the first candidate's content; a missing link anywhere gives no parts |
| Remote.FirstImageIndex | components/BackgroundRemover.tsx:97-108 | the index of the first part with inline data, with none before it; none iff no part has inline data |
| Remote.FirstImage | components/BackgroundRemover.tsx:95-108 | an image is found iff some part of the first candidate has inline data, and it is the first such part |
| Remote.Scan | components/BackgroundRemover.tsx:94-114 | a thrown call fails with its message; a reply with an image yields it; a reply without one fails with the no-image message |
| Remote.LaterPartsIgnored | components/ImageEnhancer.tsx:124-134 | parts after the first image part, images included, never change which part is found |
| Remote.TextPartsSkipped | components/ImageEnhancer.tsx:124-134 | text parts before the image are skipped |
| Remote.LeadingImageWins | components/ImageEnhancer.tsx:120-137 | a first candidate that starts with an image part yields that image, whatever follows |
| Classify.MatchesAny | components/ImageEnhancer.tsx:142-147 | true iff the text contains one of the patterns |
| Classify.EnhancerAuthPhrases | components/ImageEnhancer.tsx:142-147 | the enhancer classifies a message as auth iff its lower-cased form contains one of its five phrases |
| Classify.RemoverAuthPhrases | components/BackgroundRemover.tsx:116-120 | the remover classifies a message as auth iff its lower-cased form contains one of its four phrases |
| Classify.EnhancerIsRemoverPlusNotFound | components/ImageEnhancer.tsx:142-147 | the enhancer's classifier is the remover's plus a bare "not found" |
| Classify.ClassifiersIgnoreCase | components/BackgroundRemover.tsx:117-120 | a message and its lower-cased form are classified alike |
| Classify.EnhancerNoImageIsNotAuth | components/ImageEnhancer.tsx:139-147 | the enhancer's own no-image message is not an auth error |
| Classify.RemoverNoImageIsNotAuth | components/BackgroundRemover.tsx:113-120 | the remover's own no-image message is not an auth error |
| Classify.BareNotFoundSplitsClassifiers | components/BackgroundRemover.tsx:116-120 | a message whose only matching phrase is "not found" is auth for the enhancer and not for the remover |
| Classify.ModelNotFoundSeparatesClassifiers | components/ImageEnhancer.tsx:142-147 | "Model not found" asks for a key in the enhancer but is a plain AI error in the remover |
| Classify.PermissionDeniedIsAuth | components/BackgroundRemover.tsx:117 | any message containing "permission denied", in any case, is auth for both tools |
| Backend.StoragePathSegments | components/BackgroundRemover.tsx:148 | a storage path splits on '/' into exactly the owner id and the timestamped file name |
| Library.IndexOf | pages/Library.tsx:50 | the index of the first equal segment; none iff the value is absent |
| Library.NoBucketSegmentNoPath | pages/Library.tsx:50-53 | a path name with no "images" segment yields the empty path |
| Library.StructuredPathRecovers | pages/Library.tsx:49-53 | everything after the first "images" segment is recovered, joined with '/' |
| Library.SavedObjectPathRecovered | pages/Library.tsx:47-53 | a public URL whose path name carries a saved storage path verbatim after the bucket segment gives back exactly that storage path |
| Library.FallbackPath | pages/Library.tsx:55-57 | empty when "/images/" does not occur; otherwise the text starting right after the first occurrence and running up to the next occurrence or the end of the URL, so it never contains the marker itself |
| Library.FallbackRecovers | pages/Library.tsx:56-57 | a URL `prefix/images/path`, with the marker nowhere else, gives back exactly path |
| Library.FallbackBetweenMarkers | pages/Library.tsx:56-57 | a URL `prefix/images/path/images/tail`, with no marker in prefix or path, gives back exactly path, the piece between the first two markers |
| Library.DeleteImage | pages/Library.tsx:38-87 | a declined confirmation does nothing; otherwise the object removal is issued only for a non-empty path, the record delete always comes last, the list changes only on success (dropping exactly that id's records), and deletingId is cleared |
| Library.StorageErrorIgnored | pages/Library.tsx:66-68 | a failed object removal makes no difference |
| Library.DeleteRemovesExactlyOne | pages/Library.tsx:80 | with unique ids, a successful delete cuts out exactly that image and keeps the others in order |
| Library.BeginDelete | pages/Library.tsx:38-42 | a confirmed delete marks the image as being deleted, which disables every delete button |
| Library.FetchImages | pages/Library.tsx:14-33 | signed out: go home and never query; signed in: rows replace the list, an error or null data keep it, and the spinner stops |
| Library.FetchIdempotent | pages/Library.tsx:25-32 | handling the same reply a second time changes nothing more |
| Library.StepPreservesInv | pages/Library.tsx:25-80 | the listed ids stay pairwise distinct through a load of database rows, a delete press and the end of a delete |
| Library.RunPreservesInv | pages/Library.tsx:25-80 | the same for any sequence of page events |
| Library.ReachableDeleteRemovesExactlyOne | pages/Library.tsx:80 | on every list the page can reach, a successful delete of a listed image cuts out exactly that image, keeping the others in order |
| Lists.RemoveKey | pages/AdminReviews.tsx:67 | the result holds exactly the elements whose id differs from the key |
| Lists.RemoveKeyAppend | pages/Library.tsx:80 | filtering works piece by piece, so it keeps the relative order |
| Lists.RemoveUniqueKey | pages/AdminReviews.tsx:67 | when only one element carries the key, the result is the list with that one element cut out |
| Lists.RemoveKeyKeepsUnique | pages/Library.tsx:80 | filtering a list with unique keys leaves a list with unique keys |
| Lists.UniqueKeyAt | pages/AdminReviews.tsx:67 | in a list with unique keys, no other element shares the key of the element at a given index |
| AdminReviews.ExpectedPassword | pages/AdminReviews.tsx:39 | the configured password when set and non-empty, otherwise "admin123" |
| AdminReviews.SetPassword | pages/AdminReviews.tsx:86 | the field holds what was typed, and nothing else changes |
| AdminReviews.Login | pages/AdminReviews.tsx:36-44 | the gate opens iff the typed password equals the expected one; otherwise only the alert |
| AdminReviews.DefaultPasswordOpens | pages/AdminReviews.tsx:39-40 | with nothing configured, exactly "admin123" opens the gate |
| AdminReviews.ConfiguredPasswordReplacesDefault | pages/AdminReviews.tsx:39-42 | once a password is configured, "admin123" no longer opens the gate (as built, no configured value reaches the page) |
| AdminReviews.BuiltPageUsesDefault | vite.config.ts:6-9 | the build empties `process.env`, so in the page as built exactly "admin123" opens the gate |
| AdminReviews.Logout | pages/AdminReviews.tsx:106 | only the authenticated flag changes, and it becomes false |
| AdminReviews.FetchReviews | pages/AdminReviews.tsx:19-34 | rows replace the list, with null data read as none; a failed select stores its message in `error`, which the page never renders, and keeps the list; the spinner always stops |
| AdminReviews.FetchIdempotent | pages/AdminReviews.tsx:19-34 | handling the same reply a second time changes nothing more |
| AdminReviews.SetApproval | pages/AdminReviews.tsx:56 | same length; reviews with the id take the new flag, and all others are unchanged |
| AdminReviews.ToggleApproval | pages/AdminReviews.tsx:46-60 | one update with the negated flag; the list changes only on success, and an error leaves the state as it was |
| AdminReviews.ToggleFlipsExactlyOne | pages/AdminReviews.tsx:46-56 | with unique ids, a successful toggle flips exactly that review's flag |
| AdminReviews.ToggleTwiceRestores | pages/AdminReviews.tsx:46-56 | toggling the same row twice, both accepted, restores the list |
| AdminReviews.DeleteReview | pages/AdminReviews.tsx:62-71 | declined: nothing; otherwise one delete call, and the review leaves the list only if the delete was accepted |
| AdminReviews.DeleteRemovesExactlyOne | pages/AdminReviews.tsx:67 | with unique ids, an accepted delete cuts out exactly that review and keeps the order of the rest |
| AdminReviews.DeleteUnknownIdKeepsList | pages/AdminReviews.tsx:67 | deleting an id that is not listed keeps the list |
| AdminReviews.SetApprovalKeepsUnique | pages/AdminReviews.tsx:56 | an accepted toggle changes flags only, so unique ids stay unique |
| AdminReviews.StepPreservesInv | pages/AdminReviews.tsx:12-67 | the listed ids stay pairwise distinct through typing, login, logout, a load of database rows, a toggle and a delete |
| AdminReviews.RunPreservesInv | pages/AdminReviews.tsx:12-67 | the same for any sequence of page events |
| AdminReviews.ReachableChangesTouchOne | pages/AdminReviews.tsx:56-67 | on every list the page can reach, an accepted toggle of a listed review flips exactly its flag and an accepted delete cuts out exactly it |
| ReviewForm.SelectStar | components/ReviewForm.tsx:91-95 | a star button sets the rating to a value in 1..5 and changes nothing else |
| ReviewForm.NewRow | components/ReviewForm.tsx:20-27 | the inserted row is never approved, stores a null email iff the email is empty, and copies the other fields |
| ReviewForm.RowRoundTrip | components/ReviewForm.tsx:20-27 | the form can be read back from its row, so no field is lost |
| ReviewForm.BeginSubmit | components/ReviewForm.tsx:14-32 | an empty name or comment does nothing; otherwise the status becomes submitting and one row for the form is inserted |
| ReviewForm.FinishSubmit | components/ReviewForm.tsx:34-48 | an error sets the error status and keeps the form; success resets the form and shows the thanks; the callback gets the first returned row iff there is a callback and a row |
| ReviewForm.TimerElapsed | components/ReviewForm.tsx:44 | the timer brings back the idle status |
| ReviewForm.StepPreservesInv | components/ReviewForm.tsx:14-118 | while the thanks message is up, the form behind it is the empty default |
| ReviewForm.RunPreservesInv | components/ReviewForm.tsx:14-118 | the invariant holds after any sequence of events |
| Home.ParseToolParam | pages/Home.tsx:15-16 | the parameter selects compress iff it is "compress", and enhance iff it is "enhance"; anything else, or nothing, selects nothing |
| Home.ParamRoundTrip | pages/Home.tsx:15-17 | each tool's own spelling selects that tool |
| Home.DeepLink | pages/Home.tsx:14-23 | an accepted parameter selects its tool and scrolls; anything else changes nothing |
| Home.ScrollToTool | pages/Home.tsx:25-30 | the hero buttons select their tool and scroll |
| Home.ShownPanel | pages/Home.tsx:86-106 | the tool area is shown iff a tool is active: the compressor for compress, the enhancer for enhance |
| Home.NeverReturnsToNone | pages/Home.tsx:9-30 | once a tool is active, no sequence of events closes the tool area |
| Home.ClosedUntilSelected | pages/Home.tsx:9-30 | from the initial page, the tool area is closed after a sequence of events iff none of them was a hero button or a link with an accepted parameter |
| Header.NavLinks | components/Header.tsx:33-42 | the list starts with Home, About, Blog, Contact in that order; signed in, it has a fifth entry, Library |
| Header.LibraryLinkIffLoggedIn | components/Header.tsx:40-42 | the library link is listed iff signed in |
| Header.AtMostOneActive | components/Header.tsx:33-44 | the listed paths are distinct, so at most one link is highlighted |
| Header.OpenAuth | components/Header.tsx:46-49 | opens the dialog in the chosen mode and closes the mobile menu |
| Header.CloseAuth | components/Header.tsx:202 | only the open flag changes, and it becomes false |
| Header.CloseKeepsMode | components/Header.tsx:200-204 | closing after opening keeps the mode the dialog was opened in |
| Header.ToggleMenu | components/Header.tsx:142 | the menu button flips the menu and nothing else |
| Header.CloseMenu | components/Header.tsx:159 | a mobile link closes the menu and nothing else |
| Header.SessionChanged | components/Header.tsx:19-31 | the login flag mirrors whether a session is present |
| Header.LibraryLinkFollowsSession | components/Header.tsx:21-42 | after any session change, the library link is listed iff a session is present |

## Left out

- Foreign I/O is never performed. This covers the model calls, storage and database calls, `FileReader` base64 encoding and `fetch` of data URLs. Replies, decoded blob sizes, public URLs, dates and timestamps are inputs.
- Canvas decoding and JPEG encoding in the compressor are left out. Only the progress bookkeeping and the ratio are modelled.
- `formatSize`, the kilobyte label saved by the remover, and the CSS preview filters are floating point. The saved size label is an input string.
- Asynchronous interleavings, `setTimeout` delays and stale replies are left out. Each handler half is applied atomically in the order given.
- The `isSaving` flag of the three tools is not modelled. It only hides or disables the save button while a save runs, and each save is modelled as one atomic step.
- Library: the server-side date ordering of fetched rows is left out. Rows are taken in the order the select returns them.
- AdminReviews: the server-side `created_at` ordering is left out, and so is the security of the password gate. Only the comparison rule is modelled.
- Compressor.ReductionRatio: uses exact rational arithmetic. The source computes `Math.floor((1 - c / o) * 100)` in doubles, which can land one below the exact floor (e.g. o = 5, c = 4: `(1 - 4/5) * 100` is 19.999999999999996 in doubles, which floors to 19 instead of the exact 20). An original size of 0 gives no ratio here instead of a non-finite number.
- Text.Lower: lower-cases ASCII letters only. JavaScript's `toLowerCase` also folds other Unicode letters, and some of them fold to ASCII: U+212A KELVIN SIGN becomes 'k'. So a message spelling "API KEY" with that sign is an auth error in the source but not in this model.
- Compressor.Sanitize: a name is a sequence of Unicode scalar values. The source's regex has no `u` flag, so it replaces each UTF-16 code unit, and a character outside the Basic Multilingual Plane (an emoji, say) becomes two '_' there but one here. "Same length" therefore holds in scalar values, not in JavaScript's code units, and the save path built from the name differs in the same way.
- Library.SavedObjectPathRecovered: the path name is taken to carry the storage path verbatim. Browsers percent-encode characters such as spaces in a URL's path name, and the enhancer and the remover store file names unsanitised. For a name like `my photo.jpg`, the extracted path is then the encoded one, and the removal names an object that does not exist. URL encoding is not modelled.
- Remover.SaveToLibrary: the size label comes from `(size / 1024).toFixed(1)` and is taken as a parameter.
- Header: the theme toggle, the sign-out call and the authentication dialog's own form are left out. They are thin wrappers over other code.
- The blog posts, About, Contact, Footer, cards, routing table, `types.ts` and the build configuration (apart from its empty `process.env`) are not part of this model. They are markup and configuration.

## Findings

| source | as written | input that shows it | evidently intended | confidence | as-written member | corrected member |
|---|---|---|---|---|---|---|
| components/ImageCompressor.tsx:47-50 | the image gets an `onload` handler but no `onerror`, so a file that cannot be decoded never clears `isProcessing` | pick a file that is not a decodable image (e.g. a renamed text file) and press compress | a decode failure stops processing, so the user can try again | not executed | Compressor.StuckWithoutCallback | Compressor.DecodeFailureAllowsRetry |
| components/ImageEnhancer.tsx:179-191 | the `{ error }` replies of the upload and the insert are never read, so a failed save is marked saved with no alert | an upload rejected by the storage policy and an insert rejected by the database | mark saved only when both calls succeed, and show the error otherwise, as the compressor does | not executed | Enhancer.FailedSaveReportedAsSaved | Enhancer.CheckedSaveOutcomes |
| components/BackgroundRemover.tsx:150-162 | the same unchecked replies in the remover's save | an upload rejected by the storage policy and an insert rejected by the database | mark saved only when both calls succeed, and show the error otherwise | not executed | Remover.FailedSaveReportedAsSaved | Remover.CheckedSaveOutcomes |

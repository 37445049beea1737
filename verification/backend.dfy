/**
  The hosted backend as the components see it: the records they read and
  write, the calls they issue (in order), and the replies those calls give.
  Nothing here talks to a network; a reply is always an input.
 */
module Backend {
  import opened Common
  import Text

  /** The storage bucket, and the path segment that names it in public URLs. */
  const Bucket: string := "images"

  datatype User = User(id: string)

  /** A file chosen in the browser's file picker. */
  datatype File = File(name: string, size: nat, mimeType: string)

  /** A binary result held in memory. */
  datatype Blob = Blob(size: nat, mimeType: string)

  /** What is uploaded: the original file or a produced blob. */
  datatype Payload = FileData(file: File) | BlobData(blob: Blob)

  /** The `type` column of the `images` table. */
  datatype ImageKind = Compressed | Enhanced | BackgroundRemoved

  /** A row inserted into the `images` table. */
  datatype ImageRow = ImageRow(userId: string, name: string, url: string, kind: ImageKind, date: string, size: string)

  /** A row read back from the `images` table. */
  datatype SavedImage = SavedImage(id: string, name: string, url: string, kind: ImageKind, date: string, size: Option<string>)

  /** A row of the `reviews` table. */
  datatype Review = Review(id: string, name: string, email: Option<string>, rating: int, comment: string, approved: bool, createdAt: string)

  /** A row inserted into the `reviews` table (the id is generated by the database). */
  datatype ReviewRow = ReviewRow(name: string, email: Option<string>, rating: int, comment: string, approved: bool, createdAt: string)

  /** A storage or database call, recorded in the order it is issued. */
  datatype Call =
    | Upload(path: string, payload: Payload)
    | InsertImage(row: ImageRow)
    | RemoveObjects(paths: seq<string>)
    | DeleteImageRecord(id: string)
    | UpdateApproval(reviewId: string, approved: bool)
    | DeleteReviewRecord(reviewId: string)
    | InsertReview(review: ReviewRow)

  /** The `{ error }` part of a storage or database reply. */
  datatype Reply = Done | Failed(message: string)

  /** The `{ data, error }` reply of a select; `data` may be null. */
  datatype Rows<T> = Rows(data: Option<seq<T>>) | QueryFailed(message: string)

  /** The result of a save handler: the final component state, the backend
      calls it issued in order, and the alert it showed, if any. */
  datatype SaveEffect<S> = SaveEffect(state: S, calls: seq<Call>, alert: Option<string>)

  /** The object path `${userId}/${Date.now()}_${name}` every tool saves under. */
  function StoragePath(userId: string, now: nat, name: string): string {
    userId + "/" + Text.Decimal(now) + "_" + name
  }

  /** A saved object lives directly under its owner's folder: the path has
      exactly two segments, the owner id and the timestamped file name. */
  lemma StoragePathSegments(userId: string, now: nat, name: string)
    requires '/' !in userId && '/' !in name
    ensures Text.Split(StoragePath(userId, now, name), '/') == [userId, Text.Decimal(now) + "_" + name]
  {
    var file := Text.Decimal(now) + "_" + name;
    assert '/' !in file by {
      forall i | 0 <= i < |file| ensures file[i] != '/' {
        if i > |Text.Decimal(now)| { assert file[i] == name[i - |Text.Decimal(now)| - 1]; }
      }
    }
    assert StoragePath(userId, now, name) == userId + ['/'] + file;
    Text.SplitAround(userId, file, '/');
    Text.SplitWithoutSeparator(userId, '/');
    Text.SplitWithoutSeparator(file, '/');
  }
}

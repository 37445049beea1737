/**
  The library page: the signed-in user's saved images, and the deletion of
  one of them. Deleting recovers the storage object's path from the image's
  public URL, removes the object when a path was found, always deletes the
  database record, and drops the image from the list only when that record
  delete succeeded. The confirmation dialog, the URL parser and every
  backend reply are inputs.
 */
module Library {
  import opened Common
  import Text
  import opened Backend
  import Lists

  /** `new URL(image.url)`: either the browser parses it, giving its path
      name, or the constructor throws. */
  datatype ParsedUrl = Parsed(pathname: string) | Unparseable

  /** The separator the fallback splits on. */
  const Marker: string := "/" + Bucket + "/"

  const DeleteFailedPrefix: string := "Failed to delete image: "

  datatype State = State(images: seq<SavedImage>, loading: bool, deletingId: Option<string>)

  const Initial: State := State([], true, None)

  /** The key the page filters and deletes by. */
  function ImageId(x: SavedImage): string { x.id }

  /** `xs.indexOf(x)`, with -1 read as `None`. */
  function IndexOf(xs: seq<string>, x: string): (r: Option<nat>)
    ensures r.Some? ==> r.value < |xs| && xs[r.value] == x
    ensures r.Some? ==> forall j :: 0 <= j < r.value ==> xs[j] != x
    ensures r.None? <==> x !in xs
  {
    if xs == [] then None
    else if xs[0] == x then Some(0)
    else match IndexOf(xs[1..], x)
      case Some(i) => Some(i + 1)
      case None => assert forall y :: y in xs ==> y == xs[0] || y in xs[1..]; None
  }

  /** The structured extraction: the segments after the first one equal to
      the bucket name, joined with `/`; empty when there is no such segment. */
  function StructuredPath(pathname: string): string {
    var segments := Text.Split(pathname, '/');
    match IndexOf(segments, Bucket)
    case None => ""
    case Some(i) => Text.Join(segments[i + 1..], '/')
  }

  /** A path name with no bucket segment gives the empty path. */
  lemma NoBucketSegmentNoPath(pathname: string)
    requires Bucket !in Text.Split(pathname, '/')
    ensures StructuredPath(pathname) == ""
  {
  }

  /** The index found is that of the first occurrence. */
  lemma {:induction false} IndexOfFirst(before: seq<string>, x: string, after: seq<string>)
    requires x !in before
    ensures IndexOf(before + [x] + after, x) == Some(|before|)
    decreases |before|
  {
    var xs := before + [x] + after;
    if before == [] {
      assert xs[0] == x;
    } else {
      assert xs[0] == before[0];
      assert xs[1..] == before[1..] + [x] + after;
      IndexOfFirst(before[1..], x, after);
    }
  }

  predicate SlashFree(parts: seq<string>) {
    forall i :: 0 <= i < |parts| ==> '/' !in parts[i]
  }

  /** The structured extraction recovers everything after the first bucket
      segment, however many segments that is, and even when a later segment
      is itself named like the bucket. */
  lemma StructuredPathRecovers(before: seq<string>, after: seq<string>)
    requires Bucket !in before
    requires SlashFree(before) && SlashFree(after)
    ensures StructuredPath(Text.Join(before + [Bucket] + after, '/')) == Text.Join(after, '/')
  {
    var segments := before + [Bucket] + after;
    assert SlashFree(segments) by {
      forall i | 0 <= i < |segments| ensures '/' !in segments[i] {
        if i < |before| { assert segments[i] == before[i]; }
        else if i > |before| { assert segments[i] == after[i - |before| - 1]; }
      }
    }
    Text.SplitJoin(segments, '/');
    IndexOfFirst(before, Bucket, after);
    assert segments[|before| + 1..] == after;
  }

  /** An object a tool saves is found again from its public URL, provided the
      URL's path name carries the storage path verbatim: the bucket segment,
      preceded by segments none of which is named like the bucket, and
      followed by the owner's folder and the file name. A browser
      percent-encodes some characters in a path name (a space becomes `%20`),
      and the enhancer and the remover store file names unsanitised, so
      their names need not meet this; the compressor's sanitised names do. */
  lemma SavedObjectPathRecovered(before: seq<string>, userId: string, now: nat, name: string)
    requires Bucket !in before && SlashFree(before)
    requires '/' !in userId && '/' !in name
    ensures var path := StoragePath(userId, now, name);
      StructuredPath(Text.Join(before + [Bucket] + Text.Split(path, '/'), '/')) == path
  {
    var path := StoragePath(userId, now, name);
    StoragePathSegments(userId, now, name);
    var after := Text.Split(path, '/');
    StructuredPathRecovers(before, after);
    Text.JoinSplit(path, '/');
  }

  /** The fallback extraction `url.split("/images/")[1]`: the text from the
      end of the first occurrence of the marker up to the next occurrence (or
      the end of the URL), and the empty string when the marker does not
      occur. The piece holds no marker, so it stops at the first one. */
  function FallbackPath(url: string): (path: string)
    ensures !Text.Contains(url, Marker) ==> path == ""
    ensures !Text.Contains(path, Marker)
    ensures Text.Find(url, Marker).Some? ==>
      var rest := url[Text.Find(url, Marker).value + |Marker|..];
      |path| <= |rest| && path == rest[..|path|] && (|path| == |rest| || Text.OccursAt(rest, Marker, |path|))
  {
    match Text.Find(url, Marker)
    case None => ""
    case Some(i) =>
      var rest := url[i + |Marker|..];
      match Text.Find(rest, Marker)
      case None => rest
      case Some(j) =>
        var piece := rest[..j];
        forall k | 0 <= k && k + |Marker| <= |piece| ensures !Text.OccursAt(piece, Marker, k) {
          assert k < j by { assert |Marker| > 0; }
          assert !Text.OccursAt(rest, Marker, k);
          assert piece[k..k + |Marker|] == rest[k..k + |Marker|];
        }
        piece
  }

  /** A URL of the shape `<prefix>/images/<path>`, where the marker occurs
      nowhere else, gives back exactly `<path>`. */
  lemma FallbackRecovers(prefix: string, path: string)
    requires !Text.Contains(prefix + Marker[..|Marker| - 1], Marker)
    requires !Text.Contains(path, Marker)
    ensures FallbackPath(prefix + Marker + path) == path
  {
    Text.FindAfterPrefix(prefix, Marker, path);
    var url := prefix + Marker + path;
    assert url[|prefix| + |Marker|..] == path;
  }

  /** A URL of the shape `<prefix>/images/<path>/images/<tail>`, where the
      marker occurs neither in the prefix nor in the path, gives back exactly
      `<path>`: the text between the first two markers. */
  lemma FallbackBetweenMarkers(prefix: string, path: string, tail: string)
    requires !Text.Contains(prefix + Marker[..|Marker| - 1], Marker)
    requires !Text.Contains(path + Marker[..|Marker| - 1], Marker)
    ensures FallbackPath(prefix + Marker + path + Marker + tail) == path
  {
    var url := prefix + Marker + path + Marker + tail;
    assert url == prefix + Marker + (path + Marker + tail);
    Text.FindAfterPrefix(prefix, Marker, path + Marker + tail);
    assert url[|prefix| + |Marker|..] == path + Marker + tail;
    Text.FindAfterPrefix(path, Marker, tail);
    assert (path + Marker + tail)[..|path|] == path;
  }

  /** The path the handler settles on: the structured extraction when the URL
      parses, the fallback when the constructor throws. */
  function ObjectPath(image: SavedImage, parsed: ParsedUrl): string {
    match parsed
    case Parsed(p) => StructuredPath(p)
    case Unparseable => FallbackPath(image.url)
  }

  /** The result of a delete: the page state, the backend calls issued in
      order, and the alert shown, if any. */
  datatype DeleteEffect = DeleteEffect(state: State, calls: seq<Call>, alert: Option<string>)

  /** The delete handler. The storage reply is only logged, so it has no
      effect; the record delete is issued whatever happened to the object. */
  function DeleteImage(s: State, image: SavedImage, confirmed: bool, parsed: ParsedUrl, storage: Reply, db: Reply): (e: DeleteEffect)
    ensures !confirmed ==> e == DeleteEffect(s, [], None)
    ensures confirmed ==> e.state.deletingId.None? && e.state.loading == s.loading
    ensures confirmed ==> e.calls == (if ObjectPath(image, parsed) == "" then [] else [RemoveObjects([ObjectPath(image, parsed)])]) +
                                     [DeleteImageRecord(image.id)]
    ensures confirmed && db.Failed? ==> e.state.images == s.images && e.alert == Some(DeleteFailedPrefix + db.message)
    ensures confirmed && db.Done? ==> e.alert.None? && |e.state.images| <= |s.images|
    ensures confirmed && db.Done? ==> forall x :: x in e.state.images <==> x in s.images && x.id != image.id
  {
    if !confirmed then DeleteEffect(s, [], None)
    else
      var path := ObjectPath(image, parsed);
      var removal := if path == "" then [] else [RemoveObjects([path])];
      var calls := removal + [DeleteImageRecord(image.id)];
      match db
      case Failed(m) => DeleteEffect(s.(deletingId := None), calls, Some(DeleteFailedPrefix + m))
      case Done => DeleteEffect(s.(images := Lists.RemoveKey(s.images, ImageId, image.id), deletingId := None), calls, None)
  }

  /** A failed object removal makes no difference at all. */
  lemma StorageErrorIgnored(s: State, image: SavedImage, parsed: ParsedUrl, message: string, db: Reply)
    ensures DeleteImage(s, image, true, parsed, Failed(message), db) == DeleteImage(s, image, true, parsed, Done, db)
  {
  }

  /** With unique ids, a successful delete cuts exactly that image out of the
      list and keeps the others in their order. */
  lemma DeleteRemovesExactlyOne(s: State, i: nat, parsed: ParsedUrl, storage: Reply)
    requires i < |s.images|
    requires forall j :: 0 <= j < |s.images| && j != i ==> s.images[j].id != s.images[i].id
    ensures DeleteImage(s, s.images[i], true, parsed, storage, Done).state.images == s.images[..i] + s.images[i + 1..]
  {
    Lists.RemoveUniqueKey(s.images, ImageId, s.images[i].id, i);
  }

  /** The delete buttons are disabled while any delete is running. */
  predicate CanDelete(s: State) {
    s.deletingId.None?
  }

  /** The first half of the delete handler: a confirmed delete marks the image
      as being deleted, which disables every delete button until it ends. */
  function BeginDelete(s: State, image: SavedImage, confirmed: bool): (t: State)
    ensures !confirmed ==> t == s
    ensures confirmed ==> t == s.(deletingId := Some(image.id)) && !CanDelete(t)
  {
    if confirmed then s.(deletingId := Some(image.id)) else s
  }

  /** What loading the page leads to: back to the home page with no query
      when signed out, otherwise one select whose reply is handled. */
  datatype FetchEffect = FetchEffect(state: State, goHome: bool, queried: bool)

  /** The load handler. Rows replace the list; an error or null data leave it
      as it was; the spinner stops once a reply was handled. */
  function FetchImages(s: State, session: Option<User>, rows: Rows<SavedImage>): (e: FetchEffect)
    ensures session.None? ==> e == FetchEffect(s, true, false)
    ensures session.Some? ==> e.queried && !e.goHome && !e.state.loading && e.state.deletingId == s.deletingId
    ensures session.Some? && rows.Rows? && rows.data.Some? ==> e.state.images == rows.data.value
    ensures session.Some? && (rows.QueryFailed? || rows.data.None?) ==> e.state.images == s.images
  {
    if session.None? then FetchEffect(s, true, false)
    else
      var images := if rows.Rows? && rows.data.Some? then rows.data.value else s.images;
      FetchEffect(s.(images := images, loading := false), false, true)
  }

  /** Handling the same reply twice changes nothing more: the list is the
      reply's rows or the list before, never a mix. */
  lemma FetchIdempotent(s: State, session: Option<User>, rows: Rows<SavedImage>)
    requires session.Some?
    ensures var once := FetchImages(s, session, rows).state;
      FetchImages(once, session, rows).state == once
  {
  }

  // -------------------------------------------------------------- events

  /** What can happen on the page: the load handler's replies, a delete
      button press with its confirmation, and the end of that delete. */
  datatype Event =
    | Load(session: Option<User>, rows: Rows<SavedImage>)
    | Press(image: SavedImage, confirmed: bool)
    | Finish(image: SavedImage, confirmed: bool, parsed: ParsedUrl, storage: Reply, db: Reply)

  /** The delete buttons only react while no delete is running. */
  function Step(s: State, e: Event): State {
    match e
    case Load(u, rows) => FetchImages(s, u, rows).state
    case Press(image, c) => if CanDelete(s) then BeginDelete(s, image, c) else s
    case Finish(image, c, p, st, db) => DeleteImage(s, image, c, p, st, db).state
  }

  function Run(s: State, events: seq<Event>): State
    decreases |events|
  {
    if events == [] then s else Run(Step(s, events[0]), events[1..])
  }

  /** The database keys image records by id, so a select never returns two
      rows with the same id. */
  predicate FromDatabase(e: Event) {
    e.Load? && e.rows.Rows? && e.rows.data.Some? ==> Lists.UniqueKeys(e.rows.data.value, ImageId)
  }

  /** The listed images have pairwise distinct ids. */
  predicate Inv(s: State) {
    Lists.UniqueKeys(s.images, ImageId)
  }

  lemma StepPreservesInv(s: State, e: Event)
    requires Inv(s) && FromDatabase(e)
    ensures Inv(Step(s, e))
  {
    if e.Finish? && e.confirmed && e.db.Done? {
      Lists.RemoveKeyKeepsUnique(s.images, ImageId, e.image.id);
    }
  }

  lemma {:induction false} RunPreservesInv(s: State, events: seq<Event>)
    requires Inv(s)
    requires forall i :: 0 <= i < |events| ==> FromDatabase(events[i])
    ensures Inv(Run(s, events))
    decreases |events|
  {
    if events != [] {
      StepPreservesInv(s, events[0]);
      RunPreservesInv(Step(s, events[0]), events[1..]);
    }
  }

  /** On every list the page can reach, a successful delete of a listed image
      cuts out exactly that image. */
  lemma ReachableDeleteRemovesExactlyOne(events: seq<Event>, i: nat, parsed: ParsedUrl, storage: Reply)
    requires forall k :: 0 <= k < |events| ==> FromDatabase(events[k])
    requires i < |Run(Initial, events).images|
    ensures var s := Run(Initial, events);
      DeleteImage(s, s.images[i], true, parsed, storage, Done).state.images == s.images[..i] + s.images[i + 1..]
  {
    var s := Run(Initial, events);
    RunPreservesInv(Initial, events);
    Lists.UniqueKeyAt(s.images, ImageId, i);
    DeleteRemovesExactlyOne(s, i, parsed, storage);
  }
}

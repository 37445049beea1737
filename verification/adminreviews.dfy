/**
  The review moderation page: a password gate, then the list of all reviews
  with a button to publish or hide each one and a button to delete it. Every
  change is sent to the database first and applied to the local list only
  when the database accepted it.
 */
module AdminReviews {
  import opened Common
  import opened Backend
  import Lists

  const DefaultPassword: string := "admin123"
  const WrongPasswordMessage: string := "Incorrect Password"
  const UpdateFailedPrefix: string := "Error updating: "
  const DeleteFailedPrefix: string := "Error deleting: "

  datatype State = State(
    reviews: seq<Review>,
    isAuthenticated: bool,
    password: string,
    loading: bool,
    error: Option<string>)

  const Initial: State := State([], false, "", true, None)

  /** The key the page updates and deletes by. */
  function ReviewId(r: Review): string { r.id }

  /** A handler's result: the page state, the backend calls it issued, and
      the alert it showed, if any. */
  datatype Effect = Effect(state: State, calls: seq<Call>, alert: Option<string>)

  /** `process.env.ADMIN_PASS || 'admin123'`: an unset or empty variable
      falls back to the default. */
  function ExpectedPassword(configured: Option<string>): (p: string)
    ensures configured.Some? && configured.value != [] ==> p == configured.value
    ensures configured.None? || configured.value == [] ==> p == DefaultPassword
  {
    if configured.Some? && configured.value != [] then configured.value else DefaultPassword
  }

  /** The password field. */
  function SetPassword(s: State, typed: string): (t: State)
    ensures t.password == typed && t == s.(password := typed)
  {
    s.(password := typed)
  }

  /** The login form: the gate opens exactly when the typed password equals
      the expected one; otherwise an alert and nothing else. */
  function Login(s: State, configured: Option<string>): (e: Effect)
    ensures e.calls == []
    ensures s.password == ExpectedPassword(configured) ==> e == Effect(s.(isAuthenticated := true), [], None)
    ensures s.password != ExpectedPassword(configured) ==> e == Effect(s, [], Some(WrongPasswordMessage))
  {
    if s.password == ExpectedPassword(configured) then Effect(s.(isAuthenticated := true), [], None)
    else Effect(s, [], Some(WrongPasswordMessage))
  }

  /** With no variable configured, exactly the default password opens the gate. */
  lemma DefaultPasswordOpens(s: State)
    ensures Login(s, None).state.isAuthenticated <==> s.isAuthenticated || s.password == DefaultPassword
  {
  }

  /** A configured password replaces the default: the default no longer opens
      the gate unless it is the configured one. No configured value reaches
      the page as built, though: see `BuiltConfiguration`. */
  lemma ConfiguredPasswordReplacesDefault(s: State, configured: string)
    requires configured != [] && configured != DefaultPassword && !s.isAuthenticated
    requires s.password == DefaultPassword
    ensures !Login(s, Some(configured)).state.isAuthenticated
  {
  }

  /** The build defines `process.env` as an empty object, so the page as
      built never sees a configured password. */
  const BuiltConfiguration: Option<string> := None

  /** In the page as built, "admin123" always opens the gate, and it is the
      only password that does. */
  lemma BuiltPageUsesDefault(s: State, typed: string)
    ensures Login(SetPassword(s, typed), BuiltConfiguration).state.isAuthenticated <==>
            s.isAuthenticated || typed == DefaultPassword
  {
  }

  /** The logout button. */
  function Logout(s: State): (t: State)
    ensures !t.isAuthenticated && t == s.(isAuthenticated := false)
  {
    s.(isAuthenticated := false)
  }

  /** The select that runs once the gate is open: rows replace the list (null
      data reads as none); a failed select stores its message in `error`,
      which the page never renders, and keeps the list. */
  function FetchReviews(s: State, rows: Rows<Review>): (t: State)
    ensures !t.loading && t.isAuthenticated == s.isAuthenticated && t.password == s.password
    ensures rows.Rows? ==> t.reviews == rows.data.GetOr([]) && t.error == s.error
    ensures rows.QueryFailed? ==> t.reviews == s.reviews && t.error == Some(rows.message)
  {
    match rows
    case Rows(d) => s.(reviews := d.GetOr([]), loading := false)
    case QueryFailed(m) => s.(error := Some(m), loading := false)
  }

  /** Handling the same reply twice changes nothing more. */
  lemma FetchIdempotent(s: State, rows: Rows<Review>)
    ensures FetchReviews(FetchReviews(s, rows), rows) == FetchReviews(s, rows)
  {
  }

  /** `reviews.map(r => r.id === id ? {...r, approved} : r)`. */
  function SetApproval(xs: seq<Review>, id: string, approved: bool): (r: seq<Review>)
    ensures |r| == |xs|
    ensures forall i :: 0 <= i < |xs| && xs[i].id == id ==> r[i] == xs[i].(approved := approved)
    ensures forall i :: 0 <= i < |xs| && xs[i].id != id ==> r[i] == xs[i]
  {
    if xs == [] then []
    else [if xs[0].id == id then xs[0].(approved := approved) else xs[0]] + SetApproval(xs[1..], id, approved)
  }

  /** The publish/hide button for a review showing `current`. */
  function ToggleApproval(s: State, id: string, current: bool, reply: Reply): (e: Effect)
    ensures e.calls == [UpdateApproval(id, !current)]
    ensures reply.Failed? ==> e.state == s && e.alert == Some(UpdateFailedPrefix + reply.message)
    ensures reply.Done? ==> e.state == s.(reviews := SetApproval(s.reviews, id, !current)) && e.alert.None?
  {
    var call := [UpdateApproval(id, !current)];
    match reply
    case Failed(m) => Effect(s, call, Some(UpdateFailedPrefix + m))
    case Done => Effect(s.(reviews := SetApproval(s.reviews, id, !current)), call, None)
  }

  /** With unique ids, a successful toggle of the review at `i` flips its
      flag and leaves every other review as it was. */
  lemma ToggleFlipsExactlyOne(s: State, i: nat)
    requires i < |s.reviews|
    requires forall j :: 0 <= j < |s.reviews| && j != i ==> s.reviews[j].id != s.reviews[i].id
    ensures var r := s.reviews[i];
      ToggleApproval(s, r.id, r.approved, Done).state.reviews == s.reviews[i := r.(approved := !r.approved)]
  {
  }

  /** Pressing the same row's button twice, with both updates accepted,
      restores the list. */
  lemma ToggleTwiceRestores(s: State, i: nat)
    requires i < |s.reviews|
    requires forall j :: 0 <= j < |s.reviews| && j != i ==> s.reviews[j].id != s.reviews[i].id
    ensures var r := s.reviews[i];
      var once := ToggleApproval(s, r.id, r.approved, Done).state;
      ToggleApproval(once, r.id, once.reviews[i].approved, Done).state == s
  {
    var r := s.reviews[i];
    var once := ToggleApproval(s, r.id, r.approved, Done).state;
    ToggleFlipsExactlyOne(s, i);
    var twice := ToggleApproval(once, r.id, once.reviews[i].approved, Done).state;
    assert twice.reviews == s.reviews;
  }

  /** The delete button: a declined confirmation does nothing; otherwise one
      delete call, and the list loses the review only if it was accepted. */
  function DeleteReview(s: State, id: string, confirmed: bool, reply: Reply): (e: Effect)
    ensures !confirmed ==> e == Effect(s, [], None)
    ensures confirmed ==> e.calls == [DeleteReviewRecord(id)]
    ensures confirmed && reply.Failed? ==> e.state == s && e.alert == Some(DeleteFailedPrefix + reply.message)
    ensures confirmed && reply.Done? ==> e.alert.None? && e.state == s.(reviews := e.state.reviews)
    ensures confirmed && reply.Done? ==> forall r :: r in e.state.reviews <==> r in s.reviews && r.id != id
  {
    if !confirmed then Effect(s, [], None)
    else
      var call := [DeleteReviewRecord(id)];
      match reply
      case Failed(m) => Effect(s, call, Some(DeleteFailedPrefix + m))
      case Done => Effect(s.(reviews := Lists.RemoveKey(s.reviews, ReviewId, id)), call, None)
  }

  /** With unique ids, an accepted delete cuts exactly that review out and
      keeps the others in their order. */
  lemma DeleteRemovesExactlyOne(s: State, i: nat)
    requires i < |s.reviews|
    requires forall j :: 0 <= j < |s.reviews| && j != i ==> s.reviews[j].id != s.reviews[i].id
    ensures DeleteReview(s, s.reviews[i].id, true, Done).state.reviews == s.reviews[..i] + s.reviews[i + 1..]
  {
    Lists.RemoveUniqueKey(s.reviews, ReviewId, s.reviews[i].id, i);
  }

  /** Deleting an id that is not listed leaves the list as it is. */
  lemma DeleteUnknownIdKeepsList(s: State, id: string)
    requires forall j :: 0 <= j < |s.reviews| ==> s.reviews[j].id != id
    ensures DeleteReview(s, id, true, Done).state == s
  {
    Lists.RemoveKeyAbsent(s.reviews, ReviewId, id);
  }

  /** An accepted toggle changes flags only, so ids stay unique. */
  lemma SetApprovalKeepsUnique(xs: seq<Review>, id: string, approved: bool)
    requires Lists.UniqueKeys(xs, ReviewId)
    ensures Lists.UniqueKeys(SetApproval(xs, id, approved), ReviewId)
  {
    var r := SetApproval(xs, id, approved);
    forall i, j | 0 <= i < j < |r| ensures ReviewId(r[i]) != ReviewId(r[j]) {
      assert ReviewId(r[i]) == ReviewId(xs[i]) && ReviewId(r[j]) == ReviewId(xs[j]);
    }
  }

  // -------------------------------------------------------------- events

  /** What can happen on the page. The select runs once the gate opens, so
      its reply only counts while authenticated; a handler's alert has no
      effect on the state. */
  datatype Event =
    | TypePassword(typed: string)
    | SubmitLogin(configured: Option<string>)
    | LogoutPressed
    | Loaded(rows: Rows<Review>)
    | TogglePressed(id: string, current: bool, reply: Reply)
    | DeletePressed(id: string, confirmed: bool, reply: Reply)

  function Step(s: State, e: Event): State {
    match e
    case TypePassword(p) => SetPassword(s, p)
    case SubmitLogin(c) => Login(s, c).state
    case LogoutPressed => Logout(s)
    case Loaded(rows) => if s.isAuthenticated then FetchReviews(s, rows) else s
    case TogglePressed(id, current, reply) => ToggleApproval(s, id, current, reply).state
    case DeletePressed(id, c, reply) => DeleteReview(s, id, c, reply).state
  }

  function Run(s: State, events: seq<Event>): State
    decreases |events|
  {
    if events == [] then s else Run(Step(s, events[0]), events[1..])
  }

  /** The database keys reviews by id, so a select never returns two rows
      with the same id. */
  predicate FromDatabase(e: Event) {
    e.Loaded? && e.rows.Rows? && e.rows.data.Some? ==> Lists.UniqueKeys(e.rows.data.value, ReviewId)
  }

  /** The listed reviews have pairwise distinct ids. */
  predicate Inv(s: State) {
    Lists.UniqueKeys(s.reviews, ReviewId)
  }

  lemma StepPreservesInv(s: State, e: Event)
    requires Inv(s) && FromDatabase(e)
    ensures Inv(Step(s, e))
  {
    match e
    case TogglePressed(id, current, reply) =>
      if reply.Done? { SetApprovalKeepsUnique(s.reviews, id, !current); }
    case DeletePressed(id, c, reply) =>
      if c && reply.Done? { Lists.RemoveKeyKeepsUnique(s.reviews, ReviewId, id); }
    case _ =>
  }

  lemma {:induction false} RunPreservesInv(s: State, events: seq<Event>)
    requires Inv(s)
    requires forall i :: 0 <= i < |events| ==> FromDatabase(events[i])
    ensures Inv(Run(s, events))
    decreases |events|
  {
    if events != [] {
      StepPreservesInv(s, events[0]);
      RunPreservesInv(Step(s, events[0]), events[1..]);
    }
  }

  /** On every list the page can reach, an accepted toggle of a listed review
      flips exactly its flag, and an accepted delete cuts out exactly it. */
  lemma ReachableChangesTouchOne(events: seq<Event>, i: nat)
    requires forall k :: 0 <= k < |events| ==> FromDatabase(events[k])
    requires i < |Run(Initial, events).reviews|
    ensures var s := Run(Initial, events);
      var r := s.reviews[i];
      ToggleApproval(s, r.id, r.approved, Done).state.reviews == s.reviews[i := r.(approved := !r.approved)] &&
      DeleteReview(s, r.id, true, Done).state.reviews == s.reviews[..i] + s.reviews[i + 1..]
  {
    var s := Run(Initial, events);
    RunPreservesInv(Initial, events);
    Lists.UniqueKeyAt(s.reviews, ReviewId, i);
    ToggleFlipsExactlyOne(s, i);
    DeleteRemovesExactlyOne(s, i);
  }
}

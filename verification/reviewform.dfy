/**
  The review form: a name, an optional email, a star rating and a comment.
  A submission inserts one unapproved review row and, on success, hands the
  stored row to the page and resets the form. The insert's reply and the
  current time are inputs.
 */
module ReviewForm {
  import opened Common
  import opened Backend

  /** A rating the star buttons can set. */
  type Star = r: int | 1 <= r <= 5 witness 5

  datatype Form = Form(name: string, email: string, rating: Star, comment: string)

  const DefaultForm: Form := Form("", "", 5, "")

  datatype Status = Idle | Submitting | Success | Failure

  datatype State = State(form: Form, status: Status)

  const Initial: State := State(DefaultForm, Idle)

  /** A star button. */
  function SelectStar(s: State, star: Star): (t: State)
    ensures t.form.rating == star && t == s.(form := s.form.(rating := star))
  {
    s.(form := s.form.(rating := star))
  }

  /** The row inserted for a form: never approved, and an empty email stored
      as null. */
  function NewRow(f: Form, createdAt: string): (row: ReviewRow)
    ensures !row.approved
    ensures row.email.None? <==> f.email == []
    ensures row.name == f.name && row.comment == f.comment && row.rating == f.rating && row.createdAt == createdAt
  {
    ReviewRow(f.name, if f.email == [] then None else Some(f.email), f.rating, f.comment, false, createdAt)
  }

  /** The form a row came from, reading a null email as empty. */
  function FormOf(row: ReviewRow): (f: Form)
    requires 1 <= row.rating <= 5
  {
    Form(row.name, row.email.GetOr(""), row.rating, row.comment)
  }

  /** No field of the form is lost in the row: it determines the form. */
  lemma RowRoundTrip(f: Form, createdAt: string)
    ensures FormOf(NewRow(f, createdAt)) == f
  {
  }

  /** The submission's first half: an empty name or comment does nothing;
      otherwise the form shows the spinner and one row is inserted. */
  datatype Submission = Submission(state: State, insert: Option<ReviewRow>)

  function BeginSubmit(s: State, createdAt: string): (r: Submission)
    ensures s.form.name == [] || s.form.comment == [] ==> r == Submission(s, None)
    ensures s.form.name != [] && s.form.comment != [] ==>
      r == Submission(s.(status := Submitting), Some(NewRow(s.form, createdAt)))
  {
    if s.form.name == [] || s.form.comment == [] then Submission(s, None)
    else Submission(s.(status := Submitting), Some(NewRow(s.form, createdAt)))
  }

  /** The submission's second half. A rejected insert shows the error and
      keeps what was typed; an accepted one shows the thanks, resets the
      form, and passes the first returned row to the page, if the page gave
      a callback and a row came back. */
  datatype Outcome = Outcome(state: State, submitted: Option<Review>)

  function FinishSubmit(s: State, hasCallback: bool, rows: Rows<Review>): (o: Outcome)
    ensures rows.QueryFailed? ==> o == Outcome(s.(status := Failure), None)
    ensures rows.Rows? ==> o.state == State(DefaultForm, Success)
    ensures o.submitted.Some? <==> hasCallback && rows.Rows? && rows.data.Some? && |rows.data.value| > 0
    ensures o.submitted.Some? ==> o.submitted.value == rows.data.value[0]
  {
    match rows
    case QueryFailed(_) => Outcome(s.(status := Failure), None)
    case Rows(d) =>
      var first := if hasCallback && d.Some? && |d.value| > 0 then Some(d.value[0]) else None;
      Outcome(State(DefaultForm, Success), first)
  }

  /** The timer set after a success puts the form back on screen. */
  function TimerElapsed(s: State): (t: State)
    ensures t.status == Idle && t.form == s.form
  {
    s.(status := Idle)
  }

  // -------------------------------------------------------------- events

  /** What the user and the backend can do. The fields and buttons exist
      only while the thanks message is not shown, and the submit button is
      disabled while a submission runs. */
  datatype Event =
    | TypeName(name: string)
    | TypeEmail(email: string)
    | TypeComment(comment: string)
    | Rate(star: Star)
    | Submit(createdAt: string)
    | Reply(hasCallback: bool, rows: Rows<Review>)
    | Timer

  function Step(s: State, e: Event): State {
    var shown := s.status != Success;
    match e
    case TypeName(n) => if shown then s.(form := s.form.(name := n)) else s
    case TypeEmail(m) => if shown then s.(form := s.form.(email := m)) else s
    case TypeComment(c) => if shown then s.(form := s.form.(comment := c)) else s
    case Rate(r) => if shown then SelectStar(s, r) else s
    case Submit(t) => if shown && s.status != Submitting then BeginSubmit(s, t).state else s
    case Reply(cb, rows) => FinishSubmit(s, cb, rows).state
    case Timer => TimerElapsed(s)
  }

  function Run(s: State, events: seq<Event>): State
    decreases |events|
  {
    if events == [] then s else Run(Step(s, events[0]), events[1..])
  }

  /** While the thanks message is up, the form behind it is the empty one. */
  predicate Inv(s: State) {
    s.status == Success ==> s.form == DefaultForm
  }

  lemma StepPreservesInv(s: State, e: Event)
    requires Inv(s)
    ensures Inv(Step(s, e))
  {
  }

  lemma {:induction false} RunPreservesInv(s: State, events: seq<Event>)
    requires Inv(s)
    ensures Inv(Run(s, events))
    decreases |events|
  {
    if events != [] {
      StepPreservesInv(s, events[0]);
      RunPreservesInv(Step(s, events[0]), events[1..]);
    }
  }
}

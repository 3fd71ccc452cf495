/** The form over time: the user's events and the arrival of responses, in
    any interleaving. A request is sent only from an enabled button, and
    the response to it clears the loading flag whenever it arrives. */
module Session {
  import opened Options
  import opened Lists
  import opened Categories
  import opened UploadForm
  import opened Payload
  import opened Submission
  import opened Display

  datatype Event =
    | ChooseFiles(category: Category, picked: Option<seq<File>>) // a file input's change event
    | Tick(category: Category)                                    // a checkbox's change event
    | Press                                                       // a click on the submit button
    | Arrive(response: Response)                                  // the pending request settles

  /** The form, the body of the request awaiting its response (if any),
      every body sent so far and every notice raised so far. */
  datatype Session = Session(form: State, pending: Option<seq<Part>>, sent: seq<seq<Part>>, alerts: seq<Alert>)

  function Start(): Session
  {
    Session(Init(), None, [], [])
  }

  /** The form's selection is duplicate-free, `loading` is set exactly while
      a request is pending, and no body ever sent repeated a part name. */
  predicate Inv(s: Session)
  {
    && Valid(s.form)
    && (s.pending.Some? <==> s.form.loading)
    && (forall k :: 0 <= k < |s.sent| ==> DistinctKeys(s.sent[k]))
  }

  /** A click on a disabled button does nothing; a response arriving ends
      the pending request. */
  function Step(s: Session, e: Event): (r: Session)
    ensures Inv(s) ==> Inv(r)
    ensures |s.sent| <= |r.sent| <= |s.sent| + 1
    ensures |r.sent| > |s.sent| ==> r.pending == Some(r.sent[|s.sent|])
    ensures Inv(s) && |r.sent| > |s.sent| ==> s.pending.None?
    ensures Inv(s) && e.Arrive? ==> r.pending.None? && !r.form.loading
  {
    match e
    case ChooseFiles(c, picked) => s.(form := SetFiles(s.form, c, picked))
    case Tick(c) => s.(form := ToggleCategory(s.form, c))
    case Press =>
      if ButtonDisabled(s.form) then s
      else
        (match BeginSubmit(s.form)
         case Rejected(a) => s.(alerts := s.alerts + [a])
         case Sending(st, parts) =>
           s.(form := st, pending := Some(parts), sent := s.sent + [parts]))
    case Arrive(resp) =>
      if s.pending.None? then s
      else
        var (st, a) := Settle(s.form, resp);
        s.(form := st, pending := None, alerts := s.alerts + [a])
  }

  function Run(s: Session, events: seq<Event>): Session
    decreases |events|
  {
    if |events| == 0 then s else Run(Step(s, events[0]), events[1..])
  }

  /** Every reachable session keeps the invariant: whatever the user does
      and whenever responses arrive, the selection stays duplicate-free,
      `loading` tracks the pending request, and no sent body repeats a name. */
  lemma {:induction false} RunKeepsInv(s: Session, events: seq<Event>)
    requires Inv(s)
    ensures Inv(Run(s, events))
    decreases |events|
  {
    if |events| > 0 {
      RunKeepsInv(Step(s, events[0]), events[1..]);
    }
  }

  /** Requests never overlap: while one is pending the button is disabled
      and a click changes nothing. */
  lemma PressWhilePendingIgnored(s: Session)
    requires Inv(s)
    requires s.pending.Some?
    ensures Step(s, Press) == s
  {
  }

  lemma StartInv()
    ensures Inv(Start())
  {
  }
}

/** `handleSubmit`: the empty-selection guard, the loading flag around the
    request, the body it sends, and the notice the user sees afterwards.
    The request itself is not modelled; its outcome is a parameter. */
module Submission {
  import opened Options
  import opened Lists
  import opened UploadForm
  import opened Payload

  /** What the awaited request produced, as far as the form can observe it. */
  datatype Response =
    | Threw                               // `fetch` itself rejected
    | Responded(ok: bool, jsonBody: bool) // `response.ok`, and whether `response.json()` resolves

  /** The `alert` notices `handleSubmit` can raise. */
  datatype Alert = SelectFirst | AnalysisCompleted | AnalysisFailed

  function AlertText(a: Alert): string
  {
    match a
    case SelectFirst => "Please select at least one image type and corresponding files."
    case AnalysisCompleted => "Analysis completed. Check console for results."
    case AnalysisFailed => "Failed to analyze the images."
  }

  /** The `try` block runs to completion only for an ok response with a JSON
      body; a non-ok status is turned into a thrown error. */
  predicate Succeeded(resp: Response)
  {
    resp.Responded? && resp.ok && resp.jsonBody
  }

  /** The synchronous part of `handleSubmit`, up to the `fetch`: either the
      guard rejects, or the form is marked loading and a body is built. */
  datatype Start = Rejected(alert: Alert) | Sending(state: State, parts: seq<Part>)

  function BeginSubmit(st: State): (r: Start)
    ensures r.Rejected? <==> |st.selected| == 0
    ensures r.Rejected? ==> r.alert == SelectFirst
    ensures r.Sending? ==> r.state.loading
    ensures r.Sending? ==> r.state.files == st.files && r.state.selected == st.selected
    ensures r.Sending? ==> |r.parts| == FileCount(st.selected, st.files)
    ensures r.Sending? ==> forall a :: 0 <= a < |r.parts| ==> PartIsFileOf(r.parts[a], st.selected, st.files)
    ensures r.Sending? && Valid(st) ==> DistinctKeys(r.parts)
  {
    if |st.selected| == 0 then Rejected(SelectFirst)
    else
      var parts := BuildParts(st.selected, st.files);
      PayloadLength(st.selected, st.files);
      PayloadMembers(st.selected, st.files);
      assert Valid(st) ==> DistinctKeys(parts) by {
        if Valid(st) {
          PayloadKeysDistinct(st.selected, st.files);
        }
      }
      Sending(st.(loading := true), parts)
  }

  /** The asynchronous tail of `handleSubmit`: the `finally` clears the
      loading flag whatever happened, and the notice depends on the outcome. */
  function Settle(st: State, resp: Response): (r: (State, Alert))
    ensures !r.0.loading
    ensures r.0.files == st.files && r.0.selected == st.selected
    ensures r.1 == AnalysisCompleted <==> Succeeded(resp)
    ensures r.1 != SelectFirst
  {
    (st.(loading := false), if Succeeded(resp) then AnalysisCompleted else AnalysisFailed)
  }

  /** What one press of the button amounts to when nothing else happens
      while the request is pending. */
  datatype Outcome = Outcome(state: State, request: Option<seq<Part>>, alert: Alert)

  function Submit(st: State, resp: Response): (r: Outcome)
    ensures |st.selected| == 0 ==> r.state == st && r.request.None? && r.alert == SelectFirst
    ensures |st.selected| > 0 ==> r.request == Some(BuildParts(st.selected, st.files))
    ensures |st.selected| > 0 ==> r.state == st.(loading := false)
    ensures |st.selected| > 0 ==> (r.alert == AnalysisCompleted <==> Succeeded(resp))
    ensures !st.loading ==> !r.state.loading
  {
    match BeginSubmit(st)
    case Rejected(a) => Outcome(st, None, a)
    case Sending(sending, parts) =>
      var (done, a) := Settle(sending, resp);
      Outcome(done, Some(parts), a)
  }

  /** A response with a non-ok status takes the failure path even when its
      body is valid JSON. */
  lemma NotOkFails(st: State, body: bool)
    requires |st.selected| > 0
    ensures Submit(st, Responded(false, body)).alert == AnalysisFailed
    ensures !Submit(st, Responded(false, body)).state.loading
  {
  }
}
